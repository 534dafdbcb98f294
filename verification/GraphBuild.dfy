/**
 * Building a bounded graph (graph/build.go): a breadth-first walk from the roots
 * in both directions, over a queue of sides, bounded in depth and in nodes.
 * Neighbours are followed in an arbitrary order, so what is proved holds for the
 * source's order by edge id.
 */
module GraphBuild {
  import opened GraphModel
  import opened GraphWalk
  import opened GraphSearch
  import opened GraphTrace
  import Common

  datatype Error = InvalidOptions | NoRoots | MisdescribedRoot(id: Id) | MalformedStep(id: Id)

  datatype Outcome<+T> = Ok(value: T) | Err(error: Error)

  datatype Omitted = Omitted(nodeLimit: bool, beyondDepth: nat)

  datatype Graph = Graph(roots: seq<Id>, nodes: map<Id, Placed>, edges: map<EdgeKey, seq<Site>>, omitted: Omitted)

  // ----------------------------------------------------- merging steps

  /** The sites of every followed step of one edge, in the order the source lists them. */
  function SitesOf(c: Config, side: Side, steps: seq<Step>, key: EdgeKey): seq<Site> {
    if steps == [] then [] else
      var step := steps[|steps| - 1];
      SitesOf(c, side, steps[..|steps| - 1], key) +
      if Follows(c.opts.access, step.edgeType) && KeyOf(side, step) == key then step.sites else []
  }

  ghost predicate Merges(c: Config, side: Side, steps: seq<Step>, merged: map<EdgeKey, Step>) {
    && (forall key :: key in merged ==> MergedFrom(c, side, steps, key, merged[key]))
    && (forall step :: step in steps && Follows(c.opts.access, step.edgeType) ==> KeyOf(side, step) in merged)
    && (forall key :: key in merged ==> merged[key].sites == SitesOf(c, side, steps, key))
  }

  ghost predicate MergedFrom(c: Config, side: Side, steps: seq<Step>, key: EdgeKey, merged: Step) {
    && key == KeyOf(side, merged)
    && exists step :: step in steps && Follows(c.opts.access, step.edgeType) && key == KeyOf(side, step) && merged.node == step.node
  }

  lemma MergesOne(c: Config, side: Side, steps: seq<Step>, step: Step, merged: map<EdgeKey, Step>)
    requires Merges(c, side, steps, merged)
    ensures !Follows(c.opts.access, step.edgeType) ==> Merges(c, side, steps + [step], merged)
    ensures Follows(c.opts.access, step.edgeType) ==>
      var key := KeyOf(side, step);
      Merges(c, side, steps + [step],
        merged[key := if key in merged then merged[key].(sites := merged[key].sites + step.sites) else step])
  {
    hide *;
    MergesParts(c, side, steps, merged);
    SitesAppend(c, side, steps, step);
    if Follows(c.opts.access, step.edgeType) {
      var key := KeyOf(side, step);
      var now := if key in merged then merged[key].(sites := merged[key].sites + step.sites) else step;
      if key !in merged {
        UnseenHasNoSites(c, side, steps, merged, key);
        assert [] + step.sites == step.sites;
      }
      MergedInto(c, side, steps, step, merged, now);
      MergesWhole(c, side, steps + [step], merged[key := now]);
    } else {
      forall k | k in merged ensures MergedFrom(c, side, steps + [step], k, merged[k]) {
        MergedStays(c, side, steps, step, k, merged[k]);
      }
      forall k | k in merged ensures merged[k].sites == SitesOf(c, side, steps + [step], k) {
        assert merged[k].sites + [] == merged[k].sites;
      }
      MergesWhole(c, side, steps + [step], merged);
    }
  }

  lemma MergesParts(c: Config, side: Side, steps: seq<Step>, merged: map<EdgeKey, Step>)
    requires Merges(c, side, steps, merged)
    ensures forall key :: key in merged ==> MergedFrom(c, side, steps, key, merged[key])
    ensures forall step :: step in steps && Follows(c.opts.access, step.edgeType) ==> KeyOf(side, step) in merged
    ensures forall key :: key in merged ==> merged[key].sites == SitesOf(c, side, steps, key)
  {
    hide MergedFrom, Follows, KeyOf, SitesOf;
  }

  lemma MergesWhole(c: Config, side: Side, steps: seq<Step>, merged: map<EdgeKey, Step>)
    requires forall key :: key in merged ==> MergedFrom(c, side, steps, key, merged[key])
    requires forall step :: step in steps && Follows(c.opts.access, step.edgeType) ==> KeyOf(side, step) in merged
    requires forall key :: key in merged ==> merged[key].sites == SitesOf(c, side, steps, key)
    ensures Merges(c, side, steps, merged)
  {
    hide MergedFrom, Follows, KeyOf, SitesOf;
  }

  lemma SitesAppendAt(c: Config, side: Side, steps: seq<Step>, step: Step, key: EdgeKey)
    ensures SitesOf(c, side, steps + [step], key)
      == SitesOf(c, side, steps, key) + (if Follows(c.opts.access, step.edgeType) && KeyOf(side, step) == key then step.sites else [])
  {
    assert (steps + [step])[..|steps|] == steps;
    hide Follows, KeyOf;
  }

  lemma SitesAppend(c: Config, side: Side, steps: seq<Step>, step: Step)
    ensures forall key ::
      SitesOf(c, side, steps + [step], key)
      == SitesOf(c, side, steps, key) + (if Follows(c.opts.access, step.edgeType) && KeyOf(side, step) == key then step.sites else [])
  {
    hide *;
    forall key
      ensures SitesOf(c, side, steps + [step], key)
        == SitesOf(c, side, steps, key) + (if Follows(c.opts.access, step.edgeType) && KeyOf(side, step) == key then step.sites else [])
    {
      SitesAppendAt(c, side, steps, step, key);
    }
  }

  lemma MergedStays(c: Config, side: Side, steps: seq<Step>, step: Step, key: EdgeKey, merged: Step)
    requires MergedFrom(c, side, steps, key, merged)
    ensures MergedFrom(c, side, steps + [step], key, merged)
  {
    hide Follows, KeyOf;
    var st :| st in steps && Follows(c.opts.access, st.edgeType) && key == KeyOf(side, st) && merged.node == st.node;
    assert st in steps + [step];
  }

  /** A followed step goes into the step of its edge, or is the first of it. */
  lemma MergedInto(c: Config, side: Side, steps: seq<Step>, step: Step, merged: map<EdgeKey, Step>, now: Step)
    requires Merges(c, side, steps, merged) && Follows(c.opts.access, step.edgeType)
    requires var key := KeyOf(side, step);
      now == if key in merged then merged[key].(sites := merged[key].sites + step.sites) else step
    requires now.sites == SitesOf(c, side, steps + [step], KeyOf(side, step))
    ensures var later := merged[KeyOf(side, step) := now];
            && (forall k :: k in later ==> MergedFrom(c, side, steps + [step], k, later[k]))
            && (forall k :: k in later ==> later[k].sites == SitesOf(c, side, steps + [step], k))
  {
    hide *;
    MergesParts(c, side, steps, merged);
    SitesAppend(c, side, steps, step);
    var key := KeyOf(side, step);
    var later := merged[key := now];
    forall k | k in later ensures MergedFrom(c, side, steps + [step], k, later[k]) && later[k].sites == SitesOf(c, side, steps + [step], k) {
      if k != key {
        MergedStays(c, side, steps, step, k, merged[k]);
        assert merged[k].sites + [] == merged[k].sites;
      } else if key in merged {
        MergedStays(c, side, steps, step, k, merged[k]);
        MergedWithSites(c, side, steps + [step], k, merged[k], now.sites);
      } else {
        assert step in steps + [step];
        MergedItself(c, side, steps + [step], step);
      }
    }
  }

  lemma MergedWithSites(c: Config, side: Side, steps: seq<Step>, key: EdgeKey, merged: Step, sites: seq<Site>)
    requires MergedFrom(c, side, steps, key, merged)
    ensures MergedFrom(c, side, steps, key, merged.(sites := sites))
  {
  }

  lemma MergedItself(c: Config, side: Side, steps: seq<Step>, step: Step)
    requires step in steps && Follows(c.opts.access, step.edgeType)
    ensures MergedFrom(c, side, steps, KeyOf(side, step), step)
  {
  }

  lemma {:induction false} UnseenHasNoSites(c: Config, side: Side, steps: seq<Step>, merged: map<EdgeKey, Step>, key: EdgeKey)
    requires forall step :: step in steps && Follows(c.opts.access, step.edgeType) ==> KeyOf(side, step) in merged
    requires key !in merged
    ensures SitesOf(c, side, steps, key) == []
  {
    if steps != [] {
      UnseenHasNoSites(c, side, steps[..|steps| - 1], merged, key);
    }
  }

  /** The sites of an edge are all those of the followed steps of that edge. */
  lemma {:induction false} SitesAreAll(c: Config, side: Side, steps: seq<Step>, key: EdgeKey, site: Site)
    ensures site in SitesOf(c, side, steps, key) <==>
      exists step :: step in steps && Follows(c.opts.access, step.edgeType) && KeyOf(side, step) == key && site in step.sites
  {
    hide Follows, KeyOf;
    if steps != [] {
      var n := |steps| - 1;
      SitesAreAll(c, side, steps[..n], key, site);
      assert steps == steps[..n] + [steps[n]];
    }
  }

  /** The i-th step is the first followed one of the edge. */
  ghost predicate FirstOf(c: Config, side: Side, steps: seq<Step>, i: nat, key: EdgeKey) {
    && i < |steps| && Follows(c.opts.access, steps[i].edgeType) && KeyOf(side, steps[i]) == key
    && forall j :: 0 <= j < i ==> !(Follows(c.opts.access, steps[j].edgeType) && KeyOf(side, steps[j]) == key)
  }

  /** Each edge has the node that the first followed step of it reports. */
  ghost predicate FirstNodes(c: Config, side: Side, steps: seq<Step>, merged: map<EdgeKey, Step>) {
    forall key :: key in merged ==> exists i: nat :: FirstOf(c, side, steps, i, key) && merged[key].node == steps[i].node
  }

  lemma FirstNodesNext(c: Config, side: Side, steps: seq<Step>, step: Step, merged: map<EdgeKey, Step>)
    requires Merges(c, side, steps, merged) && FirstNodes(c, side, steps, merged)
    ensures !Follows(c.opts.access, step.edgeType) ==> FirstNodes(c, side, steps + [step], merged)
    ensures Follows(c.opts.access, step.edgeType) ==>
      var key := KeyOf(side, step);
      FirstNodes(c, side, steps + [step],
        merged[key := if key in merged then merged[key].(sites := merged[key].sites + step.sites) else step])
  {
    MergesParts(c, side, steps, merged);
    hide Merges, Follows, KeyOf, SitesOf, MergedFrom;
    var longer := steps + [step];
    forall key | key in merged ensures exists i: nat :: FirstOf(c, side, longer, i, key) && merged[key].node == longer[i].node {
      var i: nat :| FirstOf(c, side, steps, i, key) && merged[key].node == steps[i].node;
      assert FirstOf(c, side, longer, i, key) && longer[i] == steps[i];
    }
    if Follows(c.opts.access, step.edgeType) && KeyOf(side, step) !in merged {
      assert forall j :: 0 <= j < |steps| ==> steps[j] in steps && longer[j] == steps[j];
      assert FirstOf(c, side, longer, |steps|, KeyOf(side, step)) && longer[|steps|] == step;
    }
  }

  lemma NothingMerged(c: Config, side: Side)
    ensures Merges(c, side, [], map[]) && FirstNodes(c, side, [], map[])
  {
  }

  /** Folds the steps of a side into one per neighbour, edge type and kind. */
  method Merge(c: Config, side: Side) returns (r: Outcome<map<EdgeKey, Step>>)
    ensures r.Ok? <==> !Malformed(c, side)
    ensures r.Err? ==> r.error == MalformedStep(side.id)
    ensures r.Ok? ==> Merges(c, side, StepsOf(c, side), r.value) && FirstNodes(c, side, StepsOf(c, side), r.value)
  {
    hide Merges, FirstNodes, Follows, KeyOf, StepsOf, WellFormed;
    var steps := StepsOf(c, side);
    var byEdge: map<EdgeKey, Step> := map[];
    NothingMerged(c, side);
    for i := 0 to |steps|
      invariant forall k :: 0 <= k < i ==> WellFormed(steps[k])
      invariant Merges(c, side, steps[..i], byEdge) && FirstNodes(c, side, steps[..i], byEdge)
    {
      var step := steps[i];
      assert step in steps;
      if !WellFormed(step) {
        return Err(MalformedStep(side.id));
      }
      MergesOne(c, side, steps[..i], step, byEdge);
      FirstNodesNext(c, side, steps[..i], step, byEdge);
      assert steps[..i + 1] == steps[..i] + [step];
      if Follows(c.opts.access, step.edgeType) {
        var key := KeyOf(side, step);
        if key in byEdge {
          byEdge := byEdge[key := byEdge[key].(sites := byEdge[key].sites + step.sites)];
        } else {
          byEdge := byEdge[key := step];
        }
      }
    }
    assert steps[..|steps|] == steps;
    r := Ok(byEdge);
  }

  // ------------------------------------------------------------ the builder

  /** Some followed step of the side leads out of the graph. */
  ghost predicate LeavesGraph(c: Config, nodes: map<Id, Placed>, side: Side) {
    exists step :: FollowedStep(c, side, step) && step.node.id !in nodes
  }

  ghost predicate BeyondCounted(c: Config, s: State, current: set<Side>, beyond: set<Side>) {
    forall x :: Expanded(s, current, x) ==> (x in beyond <==> LeavesGraph(c, s.nodes, x))
  }

  /** The exact search is under way, of a source without excluded nodes: the node limit has not been met. */
  ghost predicate ExactSoFar(c: Config, roots: seq<Id>, s: State, current: set<Side>, front: nat, beyond: set<Side>) {
    Searching(c, roots, s, current, front) && RootsSettled(c, roots, s) && BeyondCounted(c, s, current, beyond)
  }

  /** More nodes are in reach than the graph may hold. */
  ghost predicate TooMany(c: Config, roots: seq<Id>) {
    exists ids: set<Id> :: |ids| > c.opts.limit && forall id :: id in ids ==> InReach(c, roots, id)
  }

  /** The search is exact until a node in reach finds the graph full. */
  ghost predicate ExactUntilFull(c: Config, roots: seq<Id>, s: State, current: set<Side>, front: nat, beyond: set<Side>) {
    if s.nodeLimit then TooMany(c, roots) else ExactSoFar(c, roots, s, current, front, beyond)
  }

  lemma OneTooMany(c: Config, roots: seq<Id>, ids: set<Id>, id: Id)
    requires |ids| >= c.opts.limit && id !in ids && InReach(c, roots, id) && forall x :: x in ids ==> InReach(c, roots, x)
    ensures TooMany(c, roots)
  {
    hide InReach;
    assert |ids + {id}| == |ids| + 1;
  }

  lemma PlacedInReach(c: Config, roots: seq<Id>, s: State)
    requires Placements(c, s.nodes) && Sound(c, roots, s)
    ensures forall id :: id in s.nodes ==> InReach(c, roots, id)
  {
    hide ReachedIn;
    forall id | id in s.nodes ensures InReach(c, roots, id) {
      var depth := s.nodes[id].depth;
      var way: Way :| ReachedIn(c, roots, Side(id, way), Abs(depth)) && (depth != 0 ==> depth == Sign(way) * Abs(depth));
      assert WithinDepth(c, roots, Side(id, way));
    }
  }

  /** A neighbour that finds the graph full is in reach, like all the nodes that fill it. */
  lemma RefusedStep(c: Config, roots: seq<Id>, s: State, e: Side, key: EdgeKey, merged: Step, k: nat)
    requires Consistent(c) && Safe(c, s) && Sound(c, roots, s) && e in s.walked && s.level[e] == k && k < c.opts.depth
    requires MergedFrom(c, e, StepsOf(c, e), key, merged)
    requires merged.node.id !in s.nodes && |s.nodes| >= c.opts.limit
    ensures TooMany(c, roots)
  {
    hide *;
    var step := StepOfMerged(c, e, key, merged);
    NextOfStep(c, roots, s, e, key, merged, step, k);
    SafeParts(c, s);
    PlacedInReach(c, roots, s);
    StepInReach(c, roots, merged.node.id, e.way, k + 1);
    OneTooMany(c, roots, s.nodes.Keys, merged.node.id);
  }

  lemma StepOfMerged(c: Config, e: Side, key: EdgeKey, merged: Step) returns (step: Step)
    requires MergedFrom(c, e, StepsOf(c, e), key, merged)
    ensures StandsFor(c, e, key, merged, step)
  {
    step :| step in StepsOf(c, e) && Follows(c.opts.access, step.edgeType) && key == KeyOf(e, step) && merged.node == step.node;
  }

  lemma StepInReach(c: Config, roots: seq<Id>, id: Id, way: Way, k: nat)
    requires ReachedIn(c, roots, Side(id, way), k) && k <= c.opts.depth
    ensures InReach(c, roots, id)
  {
    hide ReachedIn;
    assert WithinDepth(c, roots, Side(id, way));
  }

  /** A root that finds the graph full of roots is one too many. */
  lemma RefusedRoot(c: Config, roots: seq<Id>, s: State, i: nat)
    requires RootsAdded(c, roots, s, i) && i < |roots| && roots[i] !in s.nodes && |s.nodes| >= c.opts.limit && c.opts.depth >= 0
    ensures TooMany(c, roots)
  {
    hide InReach, Requested;
    forall id | id in roots ensures InReach(c, roots, id) {
      RootInReach(c, roots, id);
    }
    OneTooMany(c, roots, s.nodes.Keys, roots[i]);
  }

  lemma RootInReach(c: Config, roots: seq<Id>, id: Id)
    requires id in roots && c.opts.depth >= 0
    ensures InReach(c, roots, id)
  {
    var way: Way := if Requested(c.opts.direction, Out) then Out else In;
    RootReached(c, roots, Side(id, way));
    StepInReach(c, roots, id, way, 0);
  }

  /** A graph that is exact holds all the nodes in reach, so they are not too many. */
  lemma ExactIsNotTooMany(c: Config, roots: seq<Id>, nodes: map<Id, Placed>)
    requires |nodes| <= c.opts.limit && forall id :: InReach(c, roots, id) ==> id in nodes
    ensures !TooMany(c, roots)
  {
    hide InReach;
    forall ids: set<Id> | forall id :: id in ids ==> InReach(c, roots, id) ensures |ids| <= c.opts.limit {
      assert forall id :: id in ids ==> id in nodes.Keys;
      SubsetSize(ids, nodes.Keys);
    }
  }

  // ------------------------------------------------- the sites of an edge

  ghost predicate FollowsEdge(c: Config, side: Side, key: EdgeKey) {
    exists step :: FollowedStep(c, side, step) && KeyOf(side, step) == key
  }

  /** The side follows the edge, and these are all the sites that it lists for it. */
  ghost predicate Tells(c: Config, side: Side, key: EdgeKey, sites: seq<Site>) {
    FollowsEdge(c, side, key) && sites == SitesOf(c, side, StepsOf(c, side), key)
  }

  /** Whatever joins the edges is told by one side. */
  ghost predicate ToldBy(c: Config, edges: map<EdgeKey, seq<Site>>, later: map<EdgeKey, seq<Site>>, side: Side) {
    forall key :: key in later ==> (key in edges && later[key] == edges[key]) || (key !in edges && Tells(c, side, key, later[key]))
  }

  ghost predicate ToldAt(c: Config, expanded: seq<Side>, i: nat, key: EdgeKey, sites: seq<Site>, first: bool) {
    && i < |expanded| && Tells(c, expanded[i], key, sites)
    && (first ==> forall j :: 0 <= j < i ==> !FollowsEdge(c, expanded[j], key))
  }

  /** Each edge has the sites that one expanded side lists for it, the first to follow it if so asked. */
  ghost predicate Told(c: Config, edges: map<EdgeKey, seq<Site>>, expanded: seq<Side>, first: bool) {
    forall key :: key in edges ==> exists i: nat :: ToldAt(c, expanded, i, key, edges[key], first)
  }

  lemma TakenTells(c: Config, edges: map<EdgeKey, seq<Site>>, s: State, walk: Walk, key: EdgeKey, merged: Step)
    requires ToldBy(c, edges, s.edges, SideOf(walk)) && (forall k :: k in edges ==> k in s.edges)
    requires Followable(c, s.nodes, SideOf(walk), key, merged)
    ensures ToldBy(c, edges, Taken(c, s, walk, key, merged).edges, SideOf(walk))
  {
    TakenEdges(c, s, walk, key, merged);
    var step := StepOfMerged(c, SideOf(walk), key, merged);
    assert FollowsEdge(c, SideOf(walk), key);
    hide Taken, FollowsEdge, MergedFrom, Keeps;
  }

  lemma TakenEdges(c: Config, s: State, walk: Walk, key: EdgeKey, step: Step)
    ensures Taken(c, s, walk, key, step).edges == s.edges || (key !in s.edges && Taken(c, s, walk, key, step).edges == s.edges[key := step.sites])
  {
    hide AtDepth, Added, Enqueued, Recorded;
    var id, depth := step.node.id, walk.depth + Sign(walk.way);
    if id !in s.nodes {
      AddedEdges(c, s, step.node, depth);
      var a := Added(c, s, step.node, depth);
      EnqueuedEdges(a, id, depth, walk.way);
      RecordedEdges(Enqueued(a, id, depth, walk.way), key, step.sites);
    } else {
      EnqueuedEdges(s, id, depth, walk.way);
      RecordedEdges(if AtDepth(c, walk) then s else Enqueued(s, id, depth, walk.way), key, step.sites);
    }
  }

  lemma RecordedEdges(s: State, key: EdgeKey, sites: seq<Site>)
    ensures Recorded(s, key, sites).edges == if key in s.edges then s.edges else s.edges[key := sites]
  {
  }

  lemma EnqueuedEdges(s: State, id: Id, depth: int, way: Way)
    ensures id in s.nodes ==> Enqueued(s, id, depth, way).edges == s.edges
  {
  }

  lemma AddedEdges(c: Config, s: State, node: Node, depth: int)
    ensures Added(c, s, node, depth).edges == s.edges && node.id in Added(c, s, node, depth).nodes
  {
  }

  /** An expanded side that follows an edge to another one has drawn it already. */
  lemma EarlierDrew(c: Config, roots: seq<Id>, s: State, before: Side, e: Side, key: EdgeKey)
    requires ExcludesAlike(c) && Safe(c, s) && TracedState(c, roots, s) && Drawn(Unexcluded(c, roots), s, {})
    requires Expanded(s, {}, before) && e in s.walked && before != e
    requires FollowsEdge(c, before, key) && FollowsEdge(c, e, key)
    ensures key in s.edges
  {
    hide Admits, Safe, TracedState, ExcludesAlike, InQueue, Follows;
    var step :| FollowedStep(c, before, step) && KeyOf(before, step) == key;
    var other :| FollowedStep(c, e, other) && KeyOf(e, other) == key;
    assert step.node.id == e.id;
    WalkedPresent(c, s, e);
    PresentIsAdmitted(c, roots, s, step, before);
    UnexcludedSteps(c, roots, before);
    assert FollowedStep(Unexcluded(c, roots), before, step);
  }

  lemma WalkedPresent(c: Config, s: State, e: Side)
    requires Safe(c, s) && e in s.walked
    ensures e.id in s.nodes
  {
  }

  /** The edges once one more side has been followed. */
  lemma ToldNext(c: Config, roots: seq<Id>, s: State, edges: map<EdgeKey, seq<Site>>, expanded: seq<Side>, first: bool, later: bool)
    requires Safe(c, s) && s.queue != [] && Logged(s, expanded) && TracedState(c, roots, s) && (later ==> first)
    requires later ==> ExcludesAlike(c) && Drawn(Unexcluded(c, roots), s, {})
    requires Told(c, s.edges, expanded, first) && ToldBy(c, s.edges, edges, SideOf(s.queue[0]))
    ensures Told(c, edges, expanded + [SideOf(s.queue[0])], later)
  {
    var e, log := SideOf(s.queue[0]), expanded + [SideOf(s.queue[0])];
    HeadLeaves(c, s);
    FirstNotExpanded(s, expanded);
    hide Safe, TracedState, ExcludesAlike, FollowsEdge, Tells, Drawn, InQueue, ToldAt;
    forall key | key in edges ensures exists i: nat :: ToldAt(c, log, i, key, edges[key], later) {
      if key in s.edges {
        var i: nat :| ToldAt(c, expanded, i, key, s.edges[key], first);
        StillTold(c, expanded, e, i, key, edges[key], first, later);
      } else {
        assert FollowsEdge(c, e, key) by { TellsFollowed(c, e, key, edges[key]); }
        forall j | later && 0 <= j < |expanded| ensures !FollowsEdge(c, expanded[j], key) {
          if FollowsEdge(c, expanded[j], key) {
            EarlierDrew(c, roots, s, expanded[j], e, key);
          }
        }
        NowTold(c, expanded, e, key, edges[key], later);
      }
    }
  }

  lemma TellsFollowed(c: Config, e: Side, key: EdgeKey, sites: seq<Site>)
    requires Tells(c, e, key, sites)
    ensures FollowsEdge(c, e, key)
  {
  }

  lemma StillTold(c: Config, expanded: seq<Side>, e: Side, i: nat, key: EdgeKey, sites: seq<Site>, first: bool, later: bool)
    requires ToldAt(c, expanded, i, key, sites, first) && (later ==> first)
    ensures ToldAt(c, expanded + [e], i, key, sites, later)
  {
    hide Tells, FollowsEdge;
  }

  lemma NowTold(c: Config, expanded: seq<Side>, e: Side, key: EdgeKey, sites: seq<Site>, first: bool)
    requires Tells(c, e, key, sites) && (first ==> forall j :: 0 <= j < |expanded| ==> !FollowsEdge(c, expanded[j], key))
    ensures ToldAt(c, expanded + [e], |expanded|, key, sites, first)
  {
    hide Tells, FollowsEdge;
  }

  // --------------------------------------------------- excluding neighbours

  /** The source says alike, wherever it reports a node, whether that node is resolved and whether it is excluded. */
  ghost predicate Agrees(c: Config) {
    Consistent(c) && ExcludesAlike(c)
  }

  /** Excluding nothing more than the steps left out beforehand bounds a walk alike. */
  lemma SameWalk(c: Config, roots: seq<Id>, s: State)
    ensures Safe(Unexcluded(c, roots), s) <==> Safe(c, s)
    ensures forall walk, key, step :: Taken(Unexcluded(c, roots), s, walk, key, step) == Taken(c, s, walk, key, step)
    ensures forall node, depth :: Added(Unexcluded(c, roots), s, node, depth) == Added(c, s, node, depth)
    ensures forall walk :: AtDepth(Unexcluded(c, roots), walk) == AtDepth(c, walk)
  {
    hide Enqueued, Recorded, Admitted;
  }

  ghost predicate KeptOf(c: Config, nodes: map<Id, Placed>, merged: map<EdgeKey, Step>, kept: map<EdgeKey, Step>) {
    && (forall key :: key in kept <==> key in merged && (merged[key].node.id in nodes || Keeps(c.opts.exclude, merged[key].node)))
    && (forall key :: key in kept ==> kept[key] == merged[key])
  }

  /** An excluded node is in the graph only as a root. */
  lemma PresentIsAdmitted(c: Config, roots: seq<Id>, s: State, step: Step, side: Side)
    requires ExcludesAlike(c) && Safe(c, s) && TracedState(c, roots, s) && step in StepsOf(c, side) && step.node.id in s.nodes
    ensures Admits(c.opts.exclude, roots, step)
  {
    hide Keeps;
    var id := step.node.id;
    assert NodeTraced(c, roots, s.walked, id, s.nodes[id].node);
    if id !in roots {
      var e, other :| e in s.walked && FollowedStep(c, e, other) && other.node == s.nodes[id].node;
      assert other in StepsOf(c, e) && other.node.id == id;
    }
  }

  /** A step merged for an edge is kept exactly when any step of that edge is admitted. */
  lemma KeptIsAdmitted(c: Config, roots: seq<Id>, s: State, side: Side, key: EdgeKey, merged: Step, step: Step)
    requires ExcludesAlike(c) && Safe(c, s) && TracedState(c, roots, s) && (forall r :: r in roots ==> r in s.nodes)
    requires MergedFrom(c, side, StepsOf(c, side), key, merged) && step in StepsOf(c, side) && KeyOf(side, step) == key
    ensures merged.node.id in s.nodes || Keeps(c.opts.exclude, merged.node) <==> Admits(c.opts.exclude, roots, step)
  {
    hide Safe, TracedState, Keeps;
    var st :| st in StepsOf(c, side) && Follows(c.opts.access, st.edgeType) && key == KeyOf(side, st) && merged.node == st.node;
    assert st.node.id == step.node.id;
    if st.node.id in s.nodes {
      PresentIsAdmitted(c, roots, s, step, side);
    }
  }

  lemma AdmittedLast(exclude: Exclusion, roots: seq<Id>, steps: seq<Step>, step: Step)
    ensures Admitted(exclude, roots, steps + [step]) == Admitted(exclude, roots, steps) + if Admits(exclude, roots, step) then [step] else []
  {
    assert (steps + [step])[..|steps|] == steps;
    hide Admits;
  }

  ghost predicate AllAdmitted(c: Config, roots: seq<Id>, side: Side, steps: seq<Step>, key: EdgeKey) {
    forall i :: 0 <= i < |steps| && KeyOf(side, steps[i]) == key ==> Admits(c.opts.exclude, roots, steps[i])
  }

  lemma NoSites(c: Config, x: Config, roots: seq<Id>, side: Side, key: EdgeKey)
    ensures SitesOf(x, side, Admitted(c.opts.exclude, roots, []), key) == SitesOf(c, side, [], key)
  {
  }

  lemma {:induction false} AdmittedSites(c: Config, x: Config, roots: seq<Id>, side: Side, steps: seq<Step>, key: EdgeKey)
    requires x.opts.access == c.opts.access && AllAdmitted(c, roots, side, steps, key)
    ensures SitesOf(x, side, Admitted(c.opts.exclude, roots, steps), key) == SitesOf(c, side, steps, key)
  {
    hide SitesOf, Admitted, Admits, Follows, KeyOf;
    if steps == [] {
      NoSites(c, x, roots, side, key);
    } else {
      var n := |steps| - 1;
      var step := steps[n];
      assert steps == steps[..n] + [step];
      AdmittedSites(c, x, roots, side, steps[..n], key);
      AdmittedLast(c.opts.exclude, roots, steps[..n], step);
      SitesAppendAt(c, side, steps[..n], step, key);
      var rest, sites := Admitted(c.opts.exclude, roots, steps[..n]), SitesOf(c, side, steps[..n], key);
      SitesAppendAt(x, side, rest, step, key);
      assert sites + [] == sites && rest + [] == rest;
    }
  }

  lemma AdmittedByIndex(c: Config, roots: seq<Id>, side: Side, steps: seq<Step>, key: EdgeKey)
    requires forall step :: step in steps && KeyOf(side, step) == key ==> Admits(c.opts.exclude, roots, step)
    ensures AllAdmitted(c, roots, side, steps, key)
  {
    hide Admits, KeyOf;
  }

  lemma KeptMerges(c: Config, roots: seq<Id>, s: State, side: Side, merged: map<EdgeKey, Step>, kept: map<EdgeKey, Step>)
    requires ExcludesAlike(c) && Safe(c, s) && TracedState(c, roots, s) && (forall r :: r in roots ==> r in s.nodes)
    requires Merges(c, side, StepsOf(c, side), merged) && KeptOf(c, s.nodes, merged, kept)
    ensures var x := Unexcluded(c, roots); Merges(x, side, StepsOf(x, side), kept)
  {
    var x := Unexcluded(c, roots);
    var steps := StepsOf(c, side);
    UnexcludedSteps(c, roots, side);
    assert x.opts.access == c.opts.access;
    hide *;
    MergesParts(c, side, steps, merged);
    KeptParts(c, s.nodes, merged, kept);
    forall key | key in kept
      ensures MergedFrom(x, side, StepsOf(x, side), key, kept[key]) && kept[key].sites == SitesOf(x, side, StepsOf(x, side), key)
    {
      forall step | step in steps && KeyOf(side, step) == key ensures Admits(c.opts.exclude, roots, step) {
        KeptIsAdmitted(c, roots, s, side, key, merged[key], step);
      }
      AdmittedByIndex(c, roots, side, steps, key);
      AdmittedSites(c, x, roots, side, steps, key);
      KeptFrom(c, x, roots, side, steps, key, kept[key]);
    }
    forall step | step in StepsOf(x, side) && Follows(x.opts.access, step.edgeType) ensures KeyOf(side, step) in kept {
      assert step in steps && Admits(c.opts.exclude, roots, step);
      KeptIsAdmitted(c, roots, s, side, KeyOf(side, step), merged[KeyOf(side, step)], step);
    }
    MergesWhole(x, side, StepsOf(x, side), kept);
  }

  lemma KeptParts(c: Config, nodes: map<Id, Placed>, merged: map<EdgeKey, Step>, kept: map<EdgeKey, Step>)
    requires KeptOf(c, nodes, merged, kept)
    ensures forall key :: key in kept <==> key in merged && (merged[key].node.id in nodes || Keeps(c.opts.exclude, merged[key].node))
    ensures forall key :: key in kept ==> kept[key] == merged[key]
  {
  }

  lemma KeptFrom(c: Config, x: Config, roots: seq<Id>, side: Side, steps: seq<Step>, key: EdgeKey, merged: Step)
    requires x.opts.access == c.opts.access && MergedFrom(c, side, steps, key, merged)
    requires forall step :: step in steps && KeyOf(side, step) == key ==> Admits(c.opts.exclude, roots, step)
    ensures MergedFrom(x, side, Admitted(c.opts.exclude, roots, steps), key, merged)
  {
    hide KeyOf, Follows, Admits;
  }

  // --------------------------------------------- following all of a side's steps

  lemma RootsStaySettled(c: Config, roots: seq<Id>, s: State, t: State)
    requires RootsSettled(c, roots, s) && Grows(s, t)
    ensures RootsSettled(c, roots, t)
  {
    hide RootSide;
    forall side | RootSide(c, roots, side) ensures Settled(t, side, 0) {
      SettledStays(s, t, side, 0);
    }
  }

  /** Whether an expanded side leads out of the graph is settled when it has been expanded. */
  lemma BeyondStays(c: Config, s: State, t: State, current: set<Side>, k: nat, beyond: set<Side>)
    requires BeyondCounted(c, s, current, beyond) && Closed(c, s, current) && LevelsInOrder(s, k) && Grows(s, t) && Safe(c, s)
    requires k < c.opts.depth || t.nodes == s.nodes
    requires forall side :: side in s.walked ==> Resolved(c, side.id)
    ensures BeyondCounted(c, t, current, beyond)
  {
    hide Closed, FollowedStep;
    forall x | Expanded(t, current, x) ensures x in beyond <==> LeavesGraph(c, t.nodes, x) {
      ExpandedBefore(s, t, current, x);
      if k < c.opts.depth {
        forall step | FollowedStep(c, x, step) ensures step.node.id in s.nodes && step.node.id in t.nodes {
          NeighbourPresent(c, s, current, x, step);
        }
      }
    }
  }

  lemma AllResolved(c: Config, roots: seq<Id>, s: State)
    requires Safe(c, s) && Sound(c, roots, s)
    ensures forall side :: side in s.walked ==> Resolved(c, side.id)
  {
  }

  /** Every followed step with this edge has been dealt with. */
  ghost predicate KeyDealt(c: Config, s: State, e: Side, key: EdgeKey, k: nat) {
    forall step :: FollowedStep(c, e, step) && KeyOf(e, step) == key ==> StepDealt(c, s, e, step, k)
  }

  lemma TakenDealsWithKey(c: Config, t: State, e: Side, key: EdgeKey, step: Step, k: nat)
    requires StepDealt(c, t, e, step, k) && KeyOf(e, step) == key
    ensures KeyDealt(c, t, e, key, k)
  {
    hide Settled;
  }

  lemma KeyStaysDealt(c: Config, s: State, t: State, e: Side, key: EdgeKey, k: nat)
    requires KeyDealt(c, s, e, key, k) && Grows(s, t) && (k >= c.opts.depth ==> t.nodes == s.nodes)
    ensures KeyDealt(c, t, e, key, k)
  {
    hide StepDealt, Grows, FollowedStep;
    forall step | FollowedStep(c, e, step) && KeyOf(e, step) == key ensures StepDealt(c, t, e, step, k) {
      StepStaysDealt(c, s, t, e, step, k);
    }
  }

  /** One round of follow's loop, in an exact search. */
  lemma TakenExactly(c: Config, roots: seq<Id>, s: State, walk: Walk, key: EdgeKey, merged: Step, k: nat, beyond: set<Side>)
    requires Consistent(c) && Safe(c, s) && ExactSoFar(c, roots, s, {SideOf(walk)}, k, beyond)
    requires SideOf(walk) in s.walked && s.level[SideOf(walk)] == k && k <= c.opts.depth && walk.depth == Sign(walk.way) * k
    requires MergedFrom(c, SideOf(walk), StepsOf(c, SideOf(walk)), key, merged)
    requires !Taken(c, s, walk, key, merged).nodeLimit
    ensures var t := Taken(c, s, walk, key, merged);
            && ExactSoFar(c, roots, t, {SideOf(walk)}, k, beyond) && KeyDealt(c, t, SideOf(walk), key, k)
            && (k == c.opts.depth ==> t.nodes == s.nodes)
  {
    var e := SideOf(walk);
    var t := Taken(c, s, walk, key, merged);
    hide Taken, Searching, RootsSettled, BeyondCounted, Safe, Consistent, Grows, Sound, Closed, LevelsInOrder, StepDealt, KeyDealt;
    var step :| step in StepsOf(c, e) && Follows(c.opts.access, step.edgeType) && key == KeyOf(e, step) && merged.node == step.node;
    TakenSafe(c, s, walk, key, merged);
    TakenSearching(c, roots, s, walk, key, merged, step, k);
    SearchingParts(c, roots, s, {e}, k);
    AllResolved(c, roots, s);
    RootsStaySettled(c, roots, s, t);
    BeyondStays(c, s, t, {e}, k, beyond);
    TakenDealsWithKey(c, t, e, key, step, k);
  }

  /** Once its steps are followed, the side is expanded and counted. */
  lemma FollowedExactly(c: Config, roots: seq<Id>, s: State, e: Side, k: nat, beyond: set<Side>, merged: map<EdgeKey, Step>, outside: bool)
    requires Safe(c, s) && ExactSoFar(c, roots, s, {e}, k, beyond) && e in s.level && s.level[e] == k && e !in beyond
    requires Merges(c, e, StepsOf(c, e), merged)
    requires forall key :: key in merged ==> KeyDealt(c, s, e, key, k)
    requires outside <==> k == c.opts.depth && exists key :: key in merged && merged[key].node.id !in s.nodes
    ensures ExactSoFar(c, roots, s, {}, k, if outside then beyond + {e} else beyond)
  {
    hide Searching, RootsSettled, Safe, StepDealt, Settled;
    forall step | FollowedStep(c, e, step) ensures StepDealt(c, s, e, step, k) {
      assert KeyDealt(c, s, e, KeyOf(e, step), k);
    }
    EndSide(c, roots, s, e, k);
    OutsideLeaves(c, s, e, k, merged, outside);
    forall x | Expanded(s, {}, x) ensures x in (if outside then beyond + {e} else beyond) <==> LeavesGraph(c, s.nodes, x) {
      if x != e {
        assert Expanded(s, {e}, x);
      }
    }
  }

  /** An exact search in the middle of follow's loop: the steps that are not in todo have been dealt with. */
  ghost predicate Following(c: Config, roots: seq<Id>, s: State, e: Side, k: nat, beyond: set<Side>,
                            kept: map<EdgeKey, Step>, todo: set<EdgeKey>, leftOut: bool) {
    && ExactSoFar(c, roots, s, {e}, k, beyond)
    && (forall key :: key in kept && key !in todo ==> KeyDealt(c, s, e, key, k))
    && (leftOut <==> k == c.opts.depth && exists key :: key in kept && key !in todo && kept[key].node.id !in s.nodes)
  }

  ghost predicate FollowingUntilFull(c: Config, roots: seq<Id>, s: State, e: Side, k: nat, beyond: set<Side>,
                                     kept: map<EdgeKey, Step>, todo: set<EdgeKey>, leftOut: bool) {
    if s.nodeLimit then TooMany(c, roots) else Following(c, roots, s, e, k, beyond, kept, todo, leftOut)
  }

  lemma FollowRound(c: Config, roots: seq<Id>, s: State, walk: Walk, k: nat, beyond: set<Side>,
                    kept: map<EdgeKey, Step>, todo: set<EdgeKey>, leftOut: bool, key: EdgeKey)
    requires Consistent(c) && Safe(c, s) && Following(c, roots, s, SideOf(walk), k, beyond, kept, todo, leftOut)
    requires SideOf(walk) in s.walked && s.level[SideOf(walk)] == k && k <= c.opts.depth && walk.depth == Sign(walk.way) * k
    requires key in todo && key in kept && MergedFrom(c, SideOf(walk), StepsOf(c, SideOf(walk)), key, kept[key])
    requires !Taken(c, s, walk, key, kept[key]).nodeLimit
    ensures Following(c, roots, Taken(c, s, walk, key, kept[key]), SideOf(walk), k, beyond, kept, todo - {key},
                      leftOut || (AtDepth(c, walk) && kept[key].node.id !in s.nodes))
  {
    hide Taken, ExactSoFar, Safe, Consistent, Grows, KeyDealt, MergedFrom, AtDepth;
    var e := SideOf(walk);
    var t := Taken(c, s, walk, key, kept[key]);
    TakenExactly(c, roots, s, walk, key, kept[key], k, beyond);
    KeyOfMerged(c, e, key, kept[key]);
    TakenSafe(c, s, walk, key, kept[key]);
    NextDepth(c, walk, k);
    forall other | other in kept && other !in todo - {key} ensures KeyDealt(c, t, e, other, k) {
      if other != key {
        KeyStaysDealt(c, s, t, e, other, k);
      }
    }
  }

  lemma KeyOfMerged(c: Config, e: Side, key: EdgeKey, merged: Step)
    requires MergedFrom(c, e, StepsOf(c, e), key, merged)
    ensures key == KeyOf(e, merged)
  {
  }

  lemma OutsideLeaves(c: Config, s: State, e: Side, k: nat, merged: map<EdgeKey, Step>, outside: bool)
    requires Safe(c, s) && e in s.level && s.level[e] == k
    requires Merges(c, e, StepsOf(c, e), merged)
    requires forall step :: FollowedStep(c, e, step) ==> StepDealt(c, s, e, step, k)
    requires outside <==> k == c.opts.depth && exists key :: key in merged && merged[key].node.id !in s.nodes
    ensures outside <==> LeavesGraph(c, s.nodes, e)
  {
    hide QueueOk, Placements, EndsPresent;
    if outside {
      var key :| key in merged && merged[key].node.id !in s.nodes;
      assert MergedFrom(c, e, StepsOf(c, e), key, merged[key]);
      var step :| step in StepsOf(c, e) && Follows(c.opts.access, step.edgeType) && key == KeyOf(e, step) && merged[key].node == step.node;
      assert FollowedStep(c, e, step) && step.node.id !in s.nodes;
    }
    if LeavesGraph(c, s.nodes, e) {
      var step :| FollowedStep(c, e, step) && step.node.id !in s.nodes;
      var key := KeyOf(e, step);
      assert key in merged && MergedFrom(c, e, StepsOf(c, e), key, merged[key]);
      assert merged[key].node.id == step.node.id;
    }
  }

  class Builder {
    const c: Config
    var nodes: map<Id, Placed>
    var edges: map<EdgeKey, seq<Site>>
    var roots: seq<Id>
    var queue: seq<Walk>
    var walked: set<Side>
    var nodeLimit: bool
    var beyondDepth: nat
    ghost var level: map<Side, nat>
    ghost var beyond: set<Side>

    ghost function Now(): State
      reads this
    {
      State(nodes, edges, queue, walked, level, nodeLimit)
    }

    constructor (c: Config)
      ensures this.c == c
      ensures Now() == State(map[], map[], [], {}, map[], false)
      ensures roots == [] && beyondDepth == 0 && beyond == {}
    {
      this.c := c;
      nodes, edges, roots, queue, walked, nodeLimit, beyondDepth := map[], map[], [], [], {}, false, 0;
      level, beyond := map[], {};
    }

    method Enqueue(id: Id, depth: int, way: Way)
      requires id in nodes
      modifies this`walked, this`queue, this`level
      ensures Now() == Enqueued(old(Now()), id, depth, way)
    {
      var side := Side(id, way);
      if side in walked || nodes[id].node.unresolved {
        return;
      }
      walked := walked + {side};
      queue := queue + [Walk(id, depth, way)];
      level := level[side := Abs(depth)];
    }

    method Add(node: Node, depth: int)
      modifies this`nodes, this`walked, this`queue, this`level
      ensures Now() == Added(c, old(Now()), node, depth) && node.id in nodes
    {
      nodes := nodes[node.id := Placed(node, depth)];
      if !node.unresolved {
        if depth >= 0 && c.opts.direction != Callers {
          Enqueue(node.id, depth, Out);
        }
        if depth <= 0 && c.opts.direction != Callees {
          Enqueue(node.id, depth, In);
        }
      }
    }

    method Record(key: EdgeKey, sites: seq<Site>)
      modifies this`edges
      ensures Now() == Recorded(old(Now()), key, sites)
    {
      if key !in edges {
        edges := edges[key := sites];
      }
    }

    /** Follows one merged step, and reports a neighbour left out because it lies beyond the depth bound. */
    method Take(walk: Walk, key: EdgeKey, step: Step) returns (outside: bool)
      modifies this`nodes, this`edges, this`walked, this`queue, this`level, this`nodeLimit
      ensures Now() == Taken(c, old(Now()), walk, key, step)
      ensures outside <==> AtDepth(c, walk) && step.node.id !in old(nodes)
    {
      hide Enqueued, Recorded, AtDepth;
      outside := false;
      if step.node.id !in nodes {
        if AtDepth(c, walk) {
          return true;
        }
        if |nodes| >= c.opts.limit {
          nodeLimit := true;
          return;
        }
        Add(step.node, walk.depth + Sign(walk.way));
      }
      if !AtDepth(c, walk) {
        Enqueue(step.node.id, walk.depth + Sign(walk.way), walk.way);
      }
      Record(key, step.sites);
    }

    /** Takes a root into the graph, unless it is there already or the node limit is met. */
    method AddRoot(id: Id) returns (r: Outcome<()>)
      requires Safe(c, Now()) && c.opts.depth >= 1
      modifies this`nodes, this`walked, this`queue, this`level, this`nodeLimit, this`roots
      ensures Safe(c, Now()) && Grows(old(Now()), Now())
      ensures r.Err? ==> r.error == MisdescribedRoot(id) && c.src.describe(id).id != id
      ensures id in old(nodes) ==> r.Ok? && Now() == old(Now()) && roots == old(roots)
      ensures id !in old(nodes) && |old(nodes)| >= c.opts.limit ==>
        r.Ok? && Now() == old(Now()).(nodeLimit := true) && roots == old(roots)
      ensures r.Ok? && id !in old(nodes) && |old(nodes)| < c.opts.limit ==>
        c.src.describe(id).id == id && Now() == Added(c, old(Now()), c.src.describe(id), 0) && roots == old(roots) + [id]
    {
      hide Safe, Placements, Leveled, QueueOk, Grows, Added;
      SafeParts(c, Now());
      SafeWhenFull(c, Now());
      GrowsSelf(Now());
      if id in nodes {
        return Ok(());
      }
      if |nodes| >= c.opts.limit {
        nodeLimit := true;
        return Ok(());
      }
      var node := c.src.describe(id);
      if node.id != id {
        return Err(MisdescribedRoot(id));
      }
      AbsOfZero();
      AddedSafe(c, Now(), node, 0);
      SafeAfterAdding(c, Now(), Added(c, Now(), node, 0));
      Add(node, 0);
      roots := roots + [id];
      r := Ok(());
    }

    /** The merged steps whose neighbours are in the graph already or are not excluded. */
    method WithoutExcluded(merged: map<EdgeKey, Step>) returns (kept: map<EdgeKey, Step>)
      ensures KeptOf(c, nodes, merged, kept)
    {
      kept := map key | key in merged && (merged[key].node.id in nodes || Keeps(c.opts.exclude, merged[key].node)) :: merged[key];
    }

    /** Follows a walk's neighbours one step. */
    method Follow(walk: Walk, ghost all: seq<Id>) returns (r: Outcome<()>)
      requires Safe(c, Now()) && SideOf(walk) in walked && walk.depth == Sign(walk.way) * level[SideOf(walk)]
      requires SideOf(walk) in level && SideOf(walk) !in beyond && TracedState(c, all, Now())
      modifies this`nodes, this`edges, this`walked, this`queue, this`level, this`nodeLimit, this`beyondDepth, this`beyond
      ensures r.Ok? <==> !Malformed(c, SideOf(walk))
      ensures r.Err? ==> r.error == MalformedStep(walk.id)
      ensures Safe(c, Now()) && Grows(old(Now()), Now()) && TracedState(c, all, Now())
      ensures (beyond == old(beyond) && beyondDepth == old(beyondDepth)) ||
              (beyond == old(beyond) + {SideOf(walk)} && beyondDepth == old(beyondDepth) + 1)
      ensures ToldBy(c, old(edges), edges, SideOf(walk))
      ensures r.Ok? && Agrees(c) && !old(nodeLimit) &&
              ExactSoFar(Unexcluded(c, all), all, old(Now()), {SideOf(walk)}, old(level)[SideOf(walk)], old(beyond)) ==>
              ExactUntilFull(Unexcluded(c, all), all, Now(), {}, old(level)[SideOf(walk)], beyond)
    {
      hide Safe, Grows, ExactSoFar, Agrees, Following, MergedFrom, Unexcluded, TracedState, KeptOf, Merges, TooMany, Tells, Followable, SitesOf;
      ghost var e, k, s0, x := SideOf(walk), level[SideOf(walk)], Now(), Unexcluded(c, all);
      SafeFacts(c, s0, e);
      var merging := Merge(c, SideOf(walk));
      if merging.Err? {
        GrowsSelf(s0);
        return Err(merging.error);
      }
      var merged := merging.value;
      var kept := WithoutExcluded(merged);
      MergedFacts(c, e, nodes, merged, kept);
      ghost var exact := Agrees(c) && !nodeLimit && ExactSoFar(x, all, s0, {e}, k, beyond);
      if exact {
        KeptExactly(c, all, s0, e, k, beyond, merged, kept);
      }
      var leftOut := FollowAll(walk, kept, all, exact);
      if exact && !nodeLimit {
        SameWalk(c, all, Now());
        FollowingEnds(x, all, Now(), e, k, beyond, kept, leftOut);
      }
      if leftOut {
        beyondDepth := beyondDepth + 1;
        beyond := beyond + {e};
      }
      r := Ok(());
    }

    /** The loop of follow: takes every step that was kept, and reports whether some neighbour lies beyond the depth bound. */
    method FollowAll(walk: Walk, kept: map<EdgeKey, Step>, ghost all: seq<Id>, ghost exact: bool) returns (leftOut: bool)
      requires Safe(c, Now()) && SideOf(walk) in walked && SideOf(walk) in level && TracedState(c, all, Now())
      requires walk.depth == Sign(walk.way) * level[SideOf(walk)] && level[SideOf(walk)] <= c.opts.depth
      requires forall key :: key in kept ==> Followable(c, nodes, SideOf(walk), key, kept[key])
      requires exact ==> !nodeLimit && FollowsExactly(Unexcluded(c, all), all, Now(), SideOf(walk), level[SideOf(walk)], beyond, kept)
      modifies this`nodes, this`edges, this`walked, this`queue, this`level, this`nodeLimit
      ensures Safe(c, Now()) && Grows(old(Now()), Now()) && TracedState(c, all, Now())
      ensures SideOf(walk) in walked && SideOf(walk) in level && level[SideOf(walk)] == old(level)[SideOf(walk)]
      ensures ToldBy(c, old(edges), edges, SideOf(walk))
      ensures exact ==>
        FollowingUntilFull(Unexcluded(c, all), all, Now(), SideOf(walk), old(level)[SideOf(walk)], beyond, kept, {}, leftOut)
    {
      hide Safe, Grows, FollowingUntilFull, FollowsExactly, Followable, Unexcluded, TracedState, Tells;
      ghost var s0, k := Now(), level[SideOf(walk)];
      GrowsSelf(s0);
      leftOut := false;
      var todo := kept.Keys;
      if exact {
        ExactFacts(Unexcluded(c, all), all, s0, SideOf(walk), k, beyond, kept);
      }
      while todo != {}
        invariant todo <= kept.Keys
        invariant Round(c, walk, s0, Now()) && TracedState(c, all, Now())
        invariant forall key :: key in kept ==> Followable(c, nodes, SideOf(walk), key, kept[key])
        invariant exact ==> FollowingUntilFull(Unexcluded(c, all), all, Now(), SideOf(walk), k, beyond, kept, todo, leftOut)
        decreases todo
      {
        var key :| key in todo;
        ghost var s := Now();
        var outside := Take(walk, key, kept[key]);
        TakenRound(c, all, s0, s, walk, key, kept);
        if exact {
          ExactRound(c, all, s0, s, walk, k, key, beyond, kept, todo, leftOut);
        }
        leftOut := leftOut || outside;
        todo := todo - {key};
      }
    }
  }

  /** A step merged for an edge whose neighbour is in the graph or not excluded. */
  ghost predicate Followable(c: Config, nodes: map<Id, Placed>, e: Side, key: EdgeKey, merged: Step) {
    && MergedFrom(c, e, StepsOf(c, e), key, merged) && merged.sites == SitesOf(c, e, StepsOf(c, e), key)
    && (merged.node.id in nodes || Keeps(c.opts.exclude, merged.node))
  }

  /** An exact search about to follow the steps of a side. */
  ghost predicate FollowsExactly(x: Config, roots: seq<Id>, s: State, e: Side, k: nat, beyond: set<Side>, kept: map<EdgeKey, Step>) {
    && Consistent(x) && Following(x, roots, s, e, k, beyond, kept, kept.Keys, false)
    && forall key :: key in kept ==> MergedFrom(x, e, StepsOf(x, e), key, kept[key])
  }

  lemma ExactFacts(x: Config, roots: seq<Id>, s: State, e: Side, k: nat, beyond: set<Side>, kept: map<EdgeKey, Step>)
    requires FollowsExactly(x, roots, s, e, k, beyond, kept)
    ensures Following(x, roots, s, e, k, beyond, kept, kept.Keys, false)
    ensures !s.nodeLimit ==> FollowingUntilFull(x, roots, s, e, k, beyond, kept, kept.Keys, false)
  {
    hide Following, Consistent, MergedFrom, TooMany;
  }

  lemma RootsPresent(c: Config, roots: seq<Id>, s: State)
    requires RootsSettled(c, roots, s)
    ensures forall r :: r in roots ==> r in s.nodes
  {
    forall r | r in roots ensures r in s.nodes {
      var way: Way := if Requested(c.opts.direction, Out) then Out else In;
      assert RootSide(c, roots, Side(r, way));
      assert Settled(s, Side(r, way), 0);
    }
  }

  /** What is kept is all the steps of the source without those to excluded nodes, so the search goes on exactly. */
  lemma KeptExactly(c: Config, roots: seq<Id>, s: State, e: Side, k: nat, beyond: set<Side>, merged: map<EdgeKey, Step>, kept: map<EdgeKey, Step>)
    requires Agrees(c) && Safe(c, s) && TracedState(c, roots, s)
    requires ExactSoFar(Unexcluded(c, roots), roots, s, {e}, k, beyond)
    requires Merges(c, e, StepsOf(c, e), merged) && KeptOf(c, s.nodes, merged, kept)
    ensures var x := Unexcluded(c, roots); Merges(x, e, StepsOf(x, e), kept) && FollowsExactly(x, roots, s, e, k, beyond, kept)
  {
    hide Searching, BeyondCounted, RootsSettled, Safe, TracedState, Unexcluded, Merges, KeptOf, MergedFrom, Consistent, ExcludesAlike;
    var x := Unexcluded(c, roots);
    RootsPresent(x, roots, s);
    KeptMerges(c, roots, s, e, merged, kept);
    MergesParts(x, e, StepsOf(x, e), kept);
    UnexcludedConsistent(c, roots);
    FollowingStarts(x, roots, s, e, k, beyond, kept);
    hide Following, ExactSoFar;
  }

  /** What every round of follow's loop keeps. */
  ghost predicate Round(c: Config, walk: Walk, s0: State, s: State) {
    && Safe(c, s) && Grows(s0, s)
    && SideOf(walk) in s.walked && SideOf(walk) in s.level && SideOf(walk) in s0.level
    && s.level[SideOf(walk)] == s0.level[SideOf(walk)] <= c.opts.depth
    && walk.depth == Sign(walk.way) * s.level[SideOf(walk)]
    && ToldBy(c, s0.edges, s.edges, SideOf(walk))
  }

  lemma TakenRound(c: Config, roots: seq<Id>, s0: State, s: State, walk: Walk, key: EdgeKey, kept: map<EdgeKey, Step>)
    requires Round(c, walk, s0, s) && TracedState(c, roots, s) && key in kept
    requires forall k :: k in kept ==> Followable(c, s.nodes, SideOf(walk), k, kept[k])
    ensures var t := Taken(c, s, walk, key, kept[key]);
            && Round(c, walk, s0, t) && TracedState(c, roots, t)
            && forall k :: k in kept ==> Followable(c, t.nodes, SideOf(walk), k, kept[k])
  {
    hide Safe, Grows, Taken, AtDepth, KeyOf, TracedState, Keeps, Follows, StepsOf, ToldBy, SitesOf;
    var e := SideOf(walk);
    var t := Taken(c, s, walk, key, kept[key]);
    assert Followable(c, s.nodes, e, key, kept[key]);
    var step :| step in StepsOf(c, e) && Follows(c.opts.access, step.edgeType) && key == KeyOf(e, step) && kept[key].node == step.node;
    assert FollowedStep(c, e, step) && StandsFor(c, e, key, kept[key], step);
    TakenTraced(c, roots, s, walk, key, kept[key], step);
    assert key == KeyOf(e, kept[key]) by { KeyOfMerged(c, e, key, kept[key]); }
    TakenKeeps(c, s0, s, walk, key, kept[key], s0.level[e]);
    TakenSafe(c, s, walk, key, kept[key]);
    NodesStay(s0, s);
    NodesStay(s, t);
    TakenTells(c, s0.edges, s, walk, key, kept[key]);
  }

  lemma NodesStay(s: State, t: State)
    requires Grows(s, t)
    ensures (forall id :: id in s.nodes ==> id in t.nodes) && forall key :: key in s.edges ==> key in t.edges
  {
  }

  lemma ExactRound(c: Config, roots: seq<Id>, s0: State, s: State, walk: Walk, k: nat, key: EdgeKey, beyond: set<Side>,
                   kept: map<EdgeKey, Step>, todo: set<EdgeKey>, leftOut: bool)
    requires Round(c, walk, s0, s) && s0.level[SideOf(walk)] == k && key in todo && key in kept
    requires FollowsExactly(Unexcluded(c, roots), roots, s0, SideOf(walk), k, beyond, kept)
    requires FollowingUntilFull(Unexcluded(c, roots), roots, s, SideOf(walk), k, beyond, kept, todo, leftOut)
    ensures FollowingUntilFull(Unexcluded(c, roots), roots, Taken(c, s, walk, key, kept[key]), SideOf(walk), k, beyond, kept, todo - {key},
                               leftOut || (AtDepth(c, walk) && kept[key].node.id !in s.nodes))
  {
    hide Safe, Grows, Following, Consistent, MergedFrom, Taken, AtDepth, KeyOf, Unexcluded, TooMany, ToldBy;
    var x := Unexcluded(c, roots);
    SameWalk(c, roots, s);
    LimitStays(c, s, walk, key, kept[key]);
    SameDepth(c, roots);
    if !Taken(c, s, walk, key, kept[key]).nodeLimit {
      FollowRound(x, roots, s, walk, k, beyond, kept, todo, leftOut, key);
    } else if !s.nodeLimit {
      FollowingSound(x, roots, s, SideOf(walk), k, beyond, kept, todo, leftOut);
      NextDepth(c, walk, k);
      RefusedStep(x, roots, s, SideOf(walk), key, kept[key], k);
    }
  }

  lemma FollowingSound(c: Config, roots: seq<Id>, s: State, e: Side, k: nat, beyond: set<Side>, kept: map<EdgeKey, Step>, todo: set<EdgeKey>, leftOut: bool)
    requires Following(c, roots, s, e, k, beyond, kept, todo, leftOut)
    ensures Sound(c, roots, s)
  {
    hide Sound;
  }

  lemma SameDepth(c: Config, roots: seq<Id>)
    ensures Unexcluded(c, roots).opts == c.opts.(exclude := KeepAll)
  {
  }

  lemma LimitStays(c: Config, s: State, walk: Walk, key: EdgeKey, step: Step)
    ensures s.nodeLimit ==> Taken(c, s, walk, key, step).nodeLimit
    ensures Taken(c, s, walk, key, step).nodeLimit && !s.nodeLimit ==>
      step.node.id !in s.nodes && |s.nodes| >= c.opts.limit && !AtDepth(c, walk)
  {
    hide AtDepth;
  }

  lemma FollowingStarts(c: Config, roots: seq<Id>, s: State, e: Side, k: nat, beyond: set<Side>, kept: map<EdgeKey, Step>)
    requires ExactSoFar(c, roots, s, {e}, k, beyond)
    ensures Following(c, roots, s, e, k, beyond, kept, kept.Keys, false)
  {
  }

  lemma FollowingEnds(c: Config, roots: seq<Id>, s: State, e: Side, k: nat, beyond: set<Side>, merged: map<EdgeKey, Step>, leftOut: bool)
    requires Safe(c, s) && e in s.level && s.level[e] == k && e !in beyond && Merges(c, e, StepsOf(c, e), merged)
    requires Following(c, roots, s, e, k, beyond, merged, {}, leftOut)
    ensures ExactSoFar(c, roots, s, {}, k, if leftOut then beyond + {e} else beyond)
  {
    FollowedExactly(c, roots, s, e, k, beyond, merged, leftOut);
  }

  lemma SafeFacts(c: Config, s: State, e: Side)
    requires Safe(c, s) && e in s.walked
    ensures s.level.Keys == s.walked && s.level[e] <= c.opts.depth
  {
  }

  lemma MergedFacts(c: Config, e: Side, nodes: map<Id, Placed>, merged: map<EdgeKey, Step>, kept: map<EdgeKey, Step>)
    requires Merges(c, e, StepsOf(c, e), merged) && KeptOf(c, nodes, merged, kept)
    ensures forall key :: key in kept ==> Followable(c, nodes, e, key, kept[key])
  {
    hide MergedFrom, Keeps, Follows, SitesOf;
  }

  /** What taking a step keeps in every walk, exact or not. */
  lemma TakenKeeps(c: Config, s0: State, s: State, walk: Walk, key: EdgeKey, step: Step, k: nat)
    requires Safe(c, s) && Grows(s0, s) && SideOf(walk) in s.walked && SideOf(walk) in s.level && s.level[SideOf(walk)] == k
    requires walk.depth == Sign(walk.way) * k && key == KeyOf(SideOf(walk), step)
    ensures var t := Taken(c, s, walk, key, step);
            && Safe(c, t) && Grows(s0, t) && SideOf(walk) in t.walked && SideOf(walk) in t.level && t.level[SideOf(walk)] == k
            && (s.nodeLimit ==> t.nodeLimit)
  {
    hide Taken;
    TakenSafe(c, s, walk, key, step);
    GrowsTrans(s0, s, Taken(c, s, walk, key, step));
  }

  lemma SafeWhenFull(c: Config, s: State)
    requires Safe(c, s)
    ensures Safe(c, s.(nodeLimit := true))
  {
  }

  lemma SafeAfterAdding(c: Config, s: State, t: State)
    requires Safe(c, s) && Grows(s, t) && t.edges == s.edges
    requires Placements(c, t.nodes) && Leveled(c, t.nodes, t.walked, t.level) && QueueOk(t.queue, t.level)
    ensures Safe(c, t)
  {
  }

  // ------------------------------------------------------------ the whole walk

  /** The sides expanded so far, each once; with those that wait they are the walked sides. */
  ghost predicate Logged(s: State, expanded: seq<Side>) {
    && Common.Distinct(expanded)
    && (forall i :: 0 <= i < |expanded| ==> expanded[i] in s.walked && !InQueue(s.queue, expanded[i]))
    && (forall side :: side in s.walked ==> side in expanded || InQueue(s.queue, side))
  }

  lemma HeadLeaves(c: Config, s: State)
    requires Safe(c, s) && s.queue != []
    ensures SideOf(s.queue[0]) in s.walked && !InQueue(Dequeued(s).queue, SideOf(s.queue[0]))
  {
    hide Placements, Leveled, EndsPresent;
    SafeGraph(c, s);
    assert forall i :: 0 <= i < |Dequeued(s).queue| ==> Dequeued(s).queue[i] == s.queue[i + 1];
  }

  /** Every walked side but those logged and the one just dequeued waits. */
  lemma OthersWait(s: State, t: State, expanded: seq<Side>)
    requires s.queue != [] && Logged(s, expanded) && Grows(Dequeued(s), t)
    ensures forall side :: side in t.walked ==> side in expanded || side == SideOf(s.queue[0]) || InQueue(t.queue, side)
  {
    var e, d := SideOf(s.queue[0]), Dequeued(s);
    hide Grows, InQueue;
    forall side | side in t.walked && side !in expanded && side != e ensures InQueue(t.queue, side) {
      QueueSplit(s, side);
      if side in s.walked {
        QueueStays(d, t, side);
      } else {
        NewlyQueued(d, t, side);
      }
    }
  }

  /** A logged side does not wait again. */
  lemma LoggedStaysOut(s: State, t: State, expanded: seq<Side>)
    requires s.queue != [] && Logged(s, expanded) && Grows(Dequeued(s), t)
    ensures forall i :: 0 <= i < |expanded| ==> expanded[i] in t.walked && !InQueue(t.queue, expanded[i]) && expanded[i] != SideOf(s.queue[0])
  {
    WalkedGrows(s, t);
    hide Grows, InQueue;
    forall i | 0 <= i < |expanded| ensures !InQueue(t.queue, expanded[i]) && expanded[i] != SideOf(s.queue[0]) {
      QueueSplit(s, expanded[i]);
      QueueStays(Dequeued(s), t, expanded[i]);
    }
  }

  lemma WalkedGrows(s: State, t: State)
    requires s.queue != [] && Grows(Dequeued(s), t)
    ensures s.walked <= t.walked
  {
  }

  lemma LogNext(c: Config, s: State, t: State, expanded: seq<Side>)
    requires Safe(c, s) && s.queue != [] && Logged(s, expanded) && Grows(Dequeued(s), t)
    ensures Logged(t, expanded + [SideOf(s.queue[0])])
    ensures SideOf(s.queue[0]) !in expanded
  {
    var e, d := SideOf(s.queue[0]), Dequeued(s);
    HeadLeaves(c, s);
    QueueStays(d, t, e);
    WalkedGrows(s, t);
    OthersWait(s, t, expanded);
    LoggedStaysOut(s, t, expanded);
    hide Grows, Safe, InQueue;
    var log := expanded + [e];
    assert forall i :: 0 <= i < |log| ==> log[i] == if i < |expanded| then expanded[i] else e;
  }

  /** Exactness so far, in a walk for which it is promised. */
  ghost predicate ExactWhenPromised(c: Config, roots: seq<Id>, s: State, front: nat, beyond: set<Side>) {
    Agrees(c) ==> ExactUntilFull(Unexcluded(c, roots), roots, s, {}, front, beyond)
  }

  lemma StartExactly(c: Config, roots: seq<Id>, s: State, front: nat, beyond: set<Side>)
    requires Safe(c, s) && s.queue != [] && ExactSoFar(c, roots, s, {}, front, beyond)
    ensures ExactSoFar(c, roots, Dequeued(s), {SideOf(s.queue[0])}, s.level[SideOf(s.queue[0])], beyond)
  {
    hide Searching, LeavesGraph, Safe, Expanded;
    StartSide(c, roots, s, front);
    forall x | Expanded(Dequeued(s), {SideOf(s.queue[0])}, x) ensures x in beyond <==> LeavesGraph(c, s.nodes, x) {
      DequeuedExpanded(s, x);
    }
  }

  lemma RootsExactly(c: Config, roots: seq<Id>, s: State)
    requires RootsAdded(c, roots, s, |roots|)
    ensures ExactSoFar(c, roots, s, {}, 0, {})
  {
    RootsStart(c, roots, s);
    hide Searching, RootsSettled;
  }

  /** What the walk delivers when the node limit is not met, c being without the steps to excluded nodes. */
  ghost predicate ExactGraph(c: Config, roots: seq<Id>, g: Graph, expanded: seq<Side>, beyond: set<Side>) {
    && Exact(c, roots, g.nodes, g.edges.Keys, set side | side in expanded)
    && g.omitted.beyondDepth == |beyond|
    && (forall side :: side in beyond <==> side in expanded && LeavesGraph(c, g.nodes, side))
  }

  lemma EndExactly(c: Config, roots: seq<Id>, s: State, front: nat, beyond: set<Side>, expanded: seq<Side>, g: Graph)
    requires Safe(c, s) && s.queue == [] && ExactSoFar(c, roots, s, {}, front, beyond) && Logged(s, expanded)
    requires g.nodes == s.nodes && g.edges == s.edges && g.omitted.beyondDepth == |beyond|
    requires forall side :: side in beyond ==> side in expanded
    ensures ExactGraph(c, roots, g, expanded, beyond)
  {
    hide Searching, RootsSettled, Safe, LeavesGraph, Exact;
    SearchEnds(c, roots, s, front);
    assert (set side | side in expanded) == s.walked;
    forall side | side in expanded ensures Expanded(s, {}, side) {
    }
  }

  lemma SafeGraph(c: Config, s: State)
    requires Safe(c, s)
    ensures |s.nodes| <= c.opts.limit && (forall id :: id in s.nodes ==> Abs(s.nodes[id].depth) <= c.opts.depth)
    ensures forall key :: key in s.edges ==> key.source in s.nodes && key.target in s.nodes
    ensures s.level.Keys == s.walked
    ensures s.queue != [] ==> SideOf(s.queue[0]) in s.walked && SideOf(s.queue[0]) in s.level &&
                              s.queue[0].depth == Sign(s.queue[0].way) * s.level[SideOf(s.queue[0])]
  {
  }

  ghost predicate RootsUntilFull(c: Config, roots: seq<Id>, s: State, done: nat) {
    if s.nodeLimit then TooMany(c, roots) else RootsAdded(c, roots, s, done)
  }

  /** The roots so far are in place, unless they are too many. */
  ghost predicate RootsPromised(c: Config, roots: seq<Id>, s: State, done: nat) {
    Logged(s, []) && TracedState(c, roots, s) && RootsUntilFull(Unexcluded(c, roots), roots, s, done)
  }

  lemma NothingYet(c: Config, roots: seq<Id>)
    requires c.opts.limit >= 0
    ensures var s := State(map[], map[], [], {}, map[], false); Safe(c, s) && RootsPromised(c, roots, s, 0)
  {
    NothingTraced(c, roots);
    hide TracedState, TooMany;
  }

  /** What adding a root does to the state. */
  ghost predicate RootTaken(c: Config, s: State, t: State, id: Id) {
    if id in s.nodes then t == s
    else if |s.nodes| >= c.opts.limit then t == s.(nodeLimit := true)
    else c.src.describe(id).id == id && t == Added(c, s, c.src.describe(id), 0)
  }

  lemma RootRound(c: Config, roots: seq<Id>, s: State, t: State, i: nat)
    requires Safe(c, s) && Grows(s, t) && RootsPromised(c, roots, s, i) && i < |roots| && c.opts.depth >= 0
    requires RootTaken(c, s, t, roots[i])
    ensures RootsPromised(c, roots, t, i + 1)
  {
    hide *;
    RootsPromisedParts(c, roots, s, i);
    RootsLogged(s, t);
    RootTakenTraced(c, roots, s, t, roots[i]);
    SameWalk(c, roots, s);
    SameRoot(c, roots, s, t, roots[i]);
    SameDepth(c, roots);
    RootTakenUntilFull(Unexcluded(c, roots), roots, s, t, i);
    RootsPromisedWhole(c, roots, t, i + 1);
  }

  lemma SameRoot(c: Config, roots: seq<Id>, s: State, t: State, id: Id)
    requires RootTaken(c, s, t, id)
    ensures RootTaken(Unexcluded(c, roots), s, t, id)
  {
    SameWalk(c, roots, s);
    hide Added;
  }

  lemma RootTakenTraced(c: Config, roots: seq<Id>, s: State, t: State, id: Id)
    requires TracedState(c, roots, s) && RootTaken(c, s, t, id) && id in roots
    ensures TracedState(c, roots, t)
  {
    hide TracedState, Added;
    if id !in s.nodes {
      if |s.nodes| >= c.opts.limit {
        RootRefused(c, roots, s, id);
      } else {
        RootTraced(c, roots, s, id);
      }
    }
  }

  lemma RootTakenUntilFull(c: Config, roots: seq<Id>, s: State, t: State, i: nat)
    requires Safe(c, s) && RootsUntilFull(c, roots, s, i) && i < |roots| && c.opts.depth >= 0 && RootTaken(c, s, t, roots[i])
    ensures RootsUntilFull(c, roots, t, i + 1)
  {
    hide RootsAdded, Added, TooMany, Safe;
    AddedLimit(c, s, c.src.describe(roots[i]), 0);
    if !s.nodeLimit {
      SafeParts(c, s);
      if roots[i] in s.nodes {
        RootRepeated(c, roots, s, i);
      } else if |s.nodes| >= c.opts.limit {
        RefusedRoot(c, roots, s, i);
      } else {
        RootAdded(c, roots, s, i);
      }
    }
  }

  lemma RootsPromisedParts(c: Config, roots: seq<Id>, s: State, done: nat)
    requires RootsPromised(c, roots, s, done)
    ensures Logged(s, []) && TracedState(c, roots, s) && RootsUntilFull(Unexcluded(c, roots), roots, s, done)
  {
    hide Logged, TracedState, RootsUntilFull, Unexcluded;
  }

  lemma RootsPromisedWhole(c: Config, roots: seq<Id>, s: State, done: nat)
    requires Logged(s, []) && TracedState(c, roots, s) && RootsUntilFull(Unexcluded(c, roots), roots, s, done)
    ensures RootsPromised(c, roots, s, done)
  {
    hide Logged, TracedState, RootsUntilFull, Unexcluded;
  }

  lemma RootRepeated(c: Config, roots: seq<Id>, s: State, i: nat)
    requires RootsAdded(c, roots, s, i) && i < |roots| && roots[i] in s.nodes
    ensures RootsAdded(c, roots, s, i + 1)
  {
  }

  lemma SafeParts(c: Config, s: State)
    requires Safe(c, s)
    ensures Placements(c, s.nodes) && Leveled(c, s.nodes, s.walked, s.level) && QueueOk(s.queue, s.level)
  {
  }

  lemma RootsLogged(s: State, t: State)
    requires Logged(s, []) && Grows(s, t)
    ensures Logged(t, [])
  {
    forall side | side in t.walked ensures InQueue(t.queue, side) {
      QueueStays(s, t, side);
    }
  }

  lemma RootsDone(c: Config, roots: seq<Id>, s: State)
    requires RootsPromised(c, roots, s, |roots|)
    ensures Logged(s, []) && TracedState(c, roots, s) && ExactWhenPromised(c, roots, s, 0, {})
  {
    hide RootsAdded, ExactSoFar, Logged, TracedState, Unexcluded, Agrees, TooMany;
    if !s.nodeLimit {
      RootsExactly(Unexcluded(c, roots), roots, s);
    }
  }

  lemma DequeuedTraced(c: Config, roots: seq<Id>, s: State)
    requires s.queue != [] && TracedState(c, roots, s)
    ensures TracedState(c, roots, Dequeued(s))
  {
    hide Traced;
  }

  /** One round of the walk's loop: s with its first side dequeued and followed is t. */
  lemma NextRound(c: Config, roots: seq<Id>, s: State, t: State, front: nat, beyond: set<Side>, later: set<Side>, expanded: seq<Side>)
    requires Safe(c, s) && s.queue != [] && Logged(s, expanded) && ExactWhenPromised(c, roots, s, front, beyond)
    requires Grows(Dequeued(s), t) && SideOf(s.queue[0]) in s.level
    requires TracedState(c, roots, s) && Told(c, s.edges, expanded, Agrees(c) && !s.nodeLimit) && ToldBy(c, s.edges, t.edges, SideOf(s.queue[0]))
    requires Agrees(c) && !s.nodeLimit &&
             ExactSoFar(Unexcluded(c, roots), roots, Dequeued(s), {SideOf(s.queue[0])}, s.level[SideOf(s.queue[0])], beyond) ==>
             ExactUntilFull(Unexcluded(c, roots), roots, t, {}, s.level[SideOf(s.queue[0])], later)
    ensures ExactWhenPromised(c, roots, t, s.level[SideOf(s.queue[0])], later)
    ensures Logged(t, expanded + [SideOf(s.queue[0])])
    ensures Told(c, t.edges, expanded + [SideOf(s.queue[0])], Agrees(c) && !t.nodeLimit)
    ensures |t.walked| - |s.walked| == |t.queue| - (|s.queue| - 1) >= 0
  {
    LogNext(c, s, t, expanded);
    RoundCounts(s, t);
    hide Logged, Safe, Agrees, ExactSoFar, Unexcluded, TracedState, Told, ToldBy, Grows, TooMany;
    SameWalk(c, roots, s);
    if Agrees(c) && !s.nodeLimit {
      StartExactly(Unexcluded(c, roots), roots, s, front, beyond);
      ExactDraws(c, roots, s, front, beyond);
    }
    ToldNext(c, roots, s, t.edges, expanded, Agrees(c) && !s.nodeLimit, Agrees(c) && !t.nodeLimit);
  }

  lemma ExactDraws(c: Config, roots: seq<Id>, s: State, front: nat, beyond: set<Side>)
    requires Agrees(c) && ExactSoFar(Unexcluded(c, roots), roots, s, {}, front, beyond)
    ensures ExcludesAlike(c) && Drawn(Unexcluded(c, roots), s, {})
  {
    hide Drawn, ExcludesAlike, Unexcluded;
  }

  lemma RoundCounts(s: State, t: State)
    requires s.queue != [] && Grows(Dequeued(s), t)
    ensures |t.walked| - |s.walked| == |t.queue| - (|s.queue| - 1) >= 0 && (s.nodeLimit ==> t.nodeLimit)
  {
  }

  /**
   * The sides expanded are the sides walked, which everything in the graph comes
   * from, and the limit is met only by a full graph that leaves a node out.
   */
  ghost predicate FromExpanded(c: Config, roots: seq<Id>, g: Graph, expanded: seq<Side>) {
    var walked := set side | side in expanded;
    && Common.Distinct(expanded) && |expanded| <= 2 * c.opts.limit
    && Traced(c, roots, g.nodes, g.edges.Keys, walked)
    && Told(c, g.edges, expanded, false)
    && (g.omitted.nodeLimit ==> |g.nodes| == c.opts.limit && Refused(c, roots, g.nodes, walked))
  }

  /** Why a walk fails. */
  ghost predicate Explained(src: Source, roots: seq<Id>, opts: Options, error: Error) {
    match error
    case InvalidOptions => !ValidOptions(opts)
    case NoRoots => ValidOptions(opts) && roots == []
    case MisdescribedRoot(id) => ValidOptions(opts) && id in roots && src.describe(id).id != id
    case MalformedStep(id) => ValidOptions(opts) && exists way: Way :: Malformed(Config(src, opts), Side(id, way))
  }

  /** Every root is described under its id, and every step has an id and a type. */
  ghost predicate WellDescribed(src: Source, roots: seq<Id>, opts: Options) {
    && (forall id :: id in roots ==> src.describe(id).id == id)
    && (forall side, step :: step in StepsOf(Config(src, opts), side) ==> WellFormed(step))
  }

  ghost predicate Malformed(c: Config, side: Side) {
    exists step :: step in StepsOf(c, side) && !WellFormed(step)
  }

  /** The roots that a graph lists: each once, in order, and no more than the limit. */
  function ListedRoots(c: Config, roots: seq<Id>): (listed: seq<Id>)
    requires c.opts.limit >= 0
    ensures Common.Distinct(listed) && |listed| <= c.opts.limit && forall id :: id in listed ==> id in roots
    ensures |listed| < c.opts.limit ==> forall id :: id in roots ==> id in listed
  {
    var each := Common.FirstOfEach(roots);
    Common.FirstOfEachIs(roots);
    if |each| <= c.opts.limit then each else each[..c.opts.limit]
  }

  /** The listed roots are in the graph as the source describes them, at depth zero. */
  ghost predicate RootsListed(c: Config, roots: seq<Id>, listed: seq<Id>, nodes: map<Id, Placed>)
    requires c.opts.limit >= 0
  {
    && listed == ListedRoots(c, roots)
    && forall id :: id in listed ==> id in nodes && nodes[id] == Placed(c.src.describe(id), 0)
  }

  /** The graph holds the roots listed so far and nothing else. */
  ghost predicate OnlyListed(listed: seq<Id>, nodes: map<Id, Placed>) {
    |listed| == |nodes| && forall id :: id in nodes ==> id in listed
  }

  lemma AddedNodes(c: Config, s: State, node: Node, depth: int)
    ensures Added(c, s, node, depth).nodes == s.nodes[node.id := Placed(node, depth)]
  {
  }

  lemma ListedRootsNext(c: Config, roots: seq<Id>, id: Id)
    requires c.opts.limit >= 0
    ensures var was, now := ListedRoots(c, roots), ListedRoots(c, roots + [id]);
            now == if id in was || |was| >= c.opts.limit then was else was + [id]
  {
    Common.FirstOfNext(roots, id);
    hide Common.FirstOfEach;
  }

  lemma TakenNodes(c: Config, s: State, t: State, id: Id)
    requires RootTaken(c, s, t, id)
    ensures t.nodes == if id in s.nodes || |s.nodes| >= c.opts.limit then s.nodes else s.nodes[id := Placed(c.src.describe(id), 0)]
  {
    AddedNodes(c, s, c.src.describe(id), 0);
    hide Added;
  }

  lemma SameRoots(c: Config, roots: seq<Id>, id: Id, nodes: map<Id, Placed>, listed: seq<Id>)
    requires c.opts.limit >= 0 && RootsListed(c, roots, listed, nodes) && (id in listed || |listed| >= c.opts.limit)
    ensures RootsListed(c, roots + [id], listed, nodes)
  {
    ListedRootsNext(c, roots, id);
    hide ListedRoots;
  }

  lemma OneMoreRoot(c: Config, roots: seq<Id>, id: Id, nodes: map<Id, Placed>, listed: seq<Id>)
    requires c.opts.limit >= 0 && RootsListed(c, roots, listed, nodes) && id !in listed && |listed| < c.opts.limit
    ensures RootsListed(c, roots + [id], listed + [id], nodes[id := Placed(c.src.describe(id), 0)])
  {
    ListedRootsNext(c, roots, id);
    hide ListedRoots;
  }

  lemma ListedAre(c: Config, roots: seq<Id>, listed: seq<Id>, nodes: map<Id, Placed>, id: Id)
    requires c.opts.limit >= 0 && RootsListed(c, roots, listed, nodes) && OnlyListed(listed, nodes)
    ensures |listed| == |nodes| && (id in listed <==> id in nodes)
  {
    hide ListedRoots;
  }

  lemma ListedNext(c: Config, roots: seq<Id>, i: nat, s: State, t: State, listed: seq<Id>, later: seq<Id>)
    requires c.opts.limit >= 0 && i < |roots| && RootsListed(c, roots[..i], listed, s.nodes) && OnlyListed(listed, s.nodes)
    requires RootTaken(c, s, t, roots[i])
    requires later == if roots[i] in s.nodes || |s.nodes| >= c.opts.limit then listed else listed + [roots[i]]
    ensures RootsListed(c, roots[..i + 1], later, t.nodes) && OnlyListed(later, t.nodes)
  {
    hide *;
    var id := roots[i];
    assert roots[..i + 1] == roots[..i] + [id];
    TakenNodes(c, s, t, id);
    ListedAre(c, roots[..i], listed, s.nodes, id);
    if id in s.nodes || |s.nodes| >= c.opts.limit {
      SameRoots(c, roots[..i], id, s.nodes, listed);
    } else {
      OneMoreRoot(c, roots[..i], id, s.nodes, listed);
      OneMoreListed(listed, s.nodes, id, Placed(c.src.describe(id), 0));
    }
  }

  lemma OneMoreListed(listed: seq<Id>, nodes: map<Id, Placed>, id: Id, placed: Placed)
    requires OnlyListed(listed, nodes) && id !in nodes
    ensures OnlyListed(listed + [id], nodes[id := placed])
  {
  }

  lemma ListedStays(c: Config, roots: seq<Id>, listed: seq<Id>, nodes: map<Id, Placed>, later: map<Id, Placed>)
    requires c.opts.limit >= 0 && RootsListed(c, roots, listed, nodes) && NodesGrow(nodes, later)
    ensures RootsListed(c, roots, listed, later)
  {
    hide ListedRoots;
  }

  /** At most as many nodes as the limit, none deeper than the depth, and both ends of every edge. */
  ghost predicate Bounded(opts: Options, g: Graph) {
    && |g.nodes| <= opts.limit
    && (forall id :: id in g.nodes ==> Abs(g.nodes[id].depth) <= opts.depth)
    && forall key :: key in g.edges ==> key.source in g.nodes && key.target in g.nodes
  }

  /** Walks the source breadth-first from the roots. */
  method Build(src: Source, roots: seq<Id>, opts: Options) returns (r: Outcome<Graph>, ghost expanded: seq<Side>, ghost beyond: set<Side>)
    ensures r.Ok? ==> ValidOptions(opts) && roots != []
    ensures ValidOptions(opts) && roots != [] && WellDescribed(src, roots, opts) ==> r.Ok?
    ensures r.Err? ==> Explained(src, roots, opts, r.error)
    ensures r.Ok? ==> forall side :: side in expanded ==> !Malformed(Config(src, opts), side)
    ensures r.Ok? ==> RootsListed(Config(src, opts), roots, r.value.roots, r.value.nodes)
    ensures r.Ok? ==> r.value.omitted.beyondDepth == |beyond| && forall side :: side in beyond ==> side in expanded
    ensures r.Ok? ==> Bounded(opts, r.value)
    ensures r.Ok? ==> FromExpanded(Config(src, opts), roots, r.value, expanded)
    ensures r.Ok? && Agrees(Config(src, opts)) ==>
            (r.value.omitted.nodeLimit <==> TooMany(Unexcluded(Config(src, opts), roots), roots))
    ensures r.Ok? && Agrees(Config(src, opts)) && !TooMany(Unexcluded(Config(src, opts), roots), roots) ==>
            ExactGraph(Unexcluded(Config(src, opts), roots), roots, r.value, expanded, beyond)
            && Told(Config(src, opts), r.value.edges, expanded, true)
  {
    var c := Config(src, opts);
    expanded, beyond := [], {};
    if !ValidOptions(opts) {
      return Err(InvalidOptions), expanded, beyond;
    }
    if roots == [] {
      return Err(NoRoots), expanded, beyond;
    }
    hide *;
    OptionsBound(opts);
    var b := new Builder(c);
    NothingYet(c, roots);
    var placed := PlaceRoots(b, roots);
    if placed.Err? {
      RootFails(src, roots, opts, placed.error);
      if WellDescribed(src, roots, opts) {
        NothingExplained(src, roots, opts, placed.error);
      }
      return Err(placed.error), expanded, beyond;
    }
    RootsDone(c, roots, b.Now());
    ghost var front, placedNodes := 0, b.nodes;
    var walked;
    walked, expanded, front := WalkQueue(b, roots);
    if walked.Err? {
      StepFails(src, roots, opts, walked.error, expanded);
      if WellDescribed(src, roots, opts) {
        NothingExplained(src, roots, opts, walked.error);
      }
      return Err(walked.error), expanded, beyond;
    }
    beyond := b.beyond;
    var g := Graph(b.roots, b.nodes, b.edges, Omitted(b.nodeLimit, b.beyondDepth));
    ListedStays(c, roots, b.roots, placedNodes, b.nodes);
    Deliver(c, roots, b.Now(), front, beyond, expanded, g);
    r := Ok(g);
  }

  lemma NothingExplained(src: Source, roots: seq<Id>, opts: Options, error: Error)
    requires ValidOptions(opts) && roots != [] && WellDescribed(src, roots, opts)
    ensures !Explained(src, roots, opts, error)
  {
    hide WellFormed, ValidOptions;
  }

  lemma RootFails(src: Source, roots: seq<Id>, opts: Options, error: Error)
    requires ValidOptions(opts) && error.MisdescribedRoot? && error.id in roots && src.describe(error.id).id != error.id
    ensures Explained(src, roots, opts, error)
  {
  }

  lemma StepFails(src: Source, roots: seq<Id>, opts: Options, error: Error, expanded: seq<Side>)
    requires ValidOptions(opts) && expanded != [] && error == MalformedStep(expanded[|expanded| - 1].id)
    requires Malformed(Config(src, opts), expanded[|expanded| - 1])
    ensures Explained(src, roots, opts, error)
  {
    var side := expanded[|expanded| - 1];
    assert side == Side(side.id, side.way);
  }

  lemma OptionsBound(opts: Options)
    requires ValidOptions(opts)
    ensures opts.depth >= 1 && opts.limit >= 1
  {
  }

  method PlaceRoots(b: Builder, roots: seq<Id>) returns (r: Outcome<()>)
    requires Safe(b.c, b.Now()) && RootsPromised(b.c, roots, b.Now(), 0) && b.c.opts.depth >= 1 && b.c.opts.limit >= 1
    requires b.roots == [] && b.nodes == map[]
    modifies b
    ensures Safe(b.c, b.Now()) && b.beyond == old(b.beyond) && b.beyondDepth == old(b.beyondDepth) && b.edges == old(b.edges)
    ensures r.Ok? ==> RootsPromised(b.c, roots, b.Now(), |roots|)
    ensures r.Ok? ==> RootsListed(b.c, roots, b.roots, b.nodes)
    ensures r.Err? ==> r.error.MisdescribedRoot? && r.error.id in roots && b.c.src.describe(r.error.id).id != r.error.id
  {
    hide Safe, Grows, RootsPromised, Added, RootsListed;
    ListedNothing(b.c);
    for i := 0 to |roots|
      invariant b.beyond == old(b.beyond) && b.beyondDepth == old(b.beyondDepth) && b.edges == old(b.edges)
      invariant Safe(b.c, b.Now()) && RootsPromised(b.c, roots, b.Now(), i)
      invariant RootsListed(b.c, roots[..i], b.roots, b.nodes) && OnlyListed(b.roots, b.nodes)
    {
      ghost var s, listed := b.Now(), b.roots;
      var added := b.AddRoot(roots[i]);
      if added.Err? {
        return Err(added.error);
      }
      RootRound(b.c, roots, s, b.Now(), i);
      ListedNext(b.c, roots, i, s, b.Now(), listed, b.roots);
    }
    assert roots[..|roots|] == roots;
    r := Ok(());
  }

  lemma ListedNothing(c: Config)
    requires c.opts.limit >= 0
    ensures RootsListed(c, [], [], map[]) && OnlyListed([], map[])
  {
  }

  /** Expands the queue's sides, first come first served, until none waits. */
  method WalkQueue(b: Builder, roots: seq<Id>) returns (r: Outcome<()>, ghost expanded: seq<Side>, ghost front: nat)
    requires Safe(b.c, b.Now()) && Logged(b.Now(), []) && TracedState(b.c, roots, b.Now()) && ExactWhenPromised(b.c, roots, b.Now(), 0, {})
    requires b.beyond == {} && b.beyondDepth == 0 && b.edges == map[]
    modifies b
    ensures Safe(b.c, b.Now()) && TracedState(b.c, roots, b.Now())
    ensures r.Ok? ==> Logged(b.Now(), expanded) && ExactWhenPromised(b.c, roots, b.Now(), front, b.beyond)
    ensures r.Ok? ==> Told(b.c, b.edges, expanded, Agrees(b.c) && !b.nodeLimit)
    ensures Common.Distinct(expanded)
    ensures |b.beyond| == b.beyondDepth && forall side :: side in b.beyond ==> side in expanded
    ensures r.Ok? ==> b.queue == [] && forall side :: side in expanded ==> !Malformed(b.c, side)
    ensures r.Err? ==> expanded != [] && r.error == MalformedStep(expanded[|expanded| - 1].id) && Malformed(b.c, expanded[|expanded| - 1])
    ensures b.roots == old(b.roots) && NodesGrow(old(b.nodes), b.nodes)
  {
    hide Safe, ExactWhenPromised, Logged, Grows, Agrees, ExactUntilFull, TracedState, Unexcluded, Told, ToldBy, NodesGrow, Malformed;
    expanded, front := [], 0;
    NothingTold(b.c, Agrees(b.c) && !b.nodeLimit);
    GrowsSelf(b.Now());
    NodesOnlyGrow(b.nodes, b.Now(), b.Now());
    while b.queue != []
      invariant Safe(b.c, b.Now()) && Logged(b.Now(), expanded) && ExactWhenPromised(b.c, roots, b.Now(), front, b.beyond)
      invariant TracedState(b.c, roots, b.Now())
      invariant b.roots == old(b.roots) && NodesGrow(old(b.nodes), b.nodes)
      invariant forall side :: side in expanded ==> !Malformed(b.c, side)
      invariant |b.beyond| == b.beyondDepth && forall side :: side in b.beyond ==> side in expanded
      invariant Common.Distinct(expanded) && Told(b.c, b.edges, expanded, Agrees(b.c) && !b.nodeLimit)
      decreases 4 * b.c.opts.limit - 2 * |b.walked| + |b.queue|
    {
      ghost var s, counted := b.Now(), b.beyond;
      SafeGraph(b.c, s);
      DequeuedSafe(b.c, s);
      DequeuedTraced(b.c, roots, s);
      WalkedBound(b.c, s);
      FirstNotExpanded(s, expanded);
      var walk := b.queue[0];
      b.queue := b.queue[1..];
      assert b.Now() == Dequeued(s);
      var followed := b.Follow(walk, roots);
      NodesOnlyGrow(old(b.nodes), Dequeued(s), b.Now());
      if followed.Err? {
        return Err(followed.error), expanded + [SideOf(walk)], front;
      }
      NextRound(b.c, roots, s, b.Now(), front, counted, b.beyond, expanded);
      front := s.level[SideOf(walk)];
      expanded := expanded + [SideOf(walk)];
    }
    r := Ok(());
  }

  lemma NothingTold(c: Config, first: bool)
    ensures Told(c, map[], [], first)
  {
  }

  lemma NodesOnlyGrow(nodes: map<Id, Placed>, s: State, t: State)
    requires nodes == s.nodes == t.nodes || (NodesGrow(nodes, s.nodes) && Grows(s, t))
    ensures NodesGrow(nodes, t.nodes)
  {
  }

  lemma FirstNotExpanded(s: State, expanded: seq<Side>)
    requires s.queue != [] && Logged(s, expanded)
    ensures SideOf(s.queue[0]) !in expanded
  {
    QueueSplit(s, SideOf(s.queue[0]));
  }

  lemma ExpandedAreWalked(s: State, expanded: seq<Side>)
    requires s.queue == [] && Logged(s, expanded)
    ensures (set side | side in expanded) == s.walked
    ensures Common.Distinct(expanded)
  {
  }

  /** A list without repetition is as long as the set of its elements. */
  lemma {:induction false} DistinctCount(expanded: seq<Side>)
    requires Common.Distinct(expanded)
    ensures |set side | side in expanded| == |expanded|
  {
    if expanded != [] {
      var n := |expanded| - 1;
      DistinctCount(expanded[..n]);
      assert (set side | side in expanded) == (set side | side in expanded[..n]) + {expanded[n]};
    }
  }

  lemma AllFromExpanded(c: Config, roots: seq<Id>, s: State, expanded: seq<Side>, g: Graph)
    requires Safe(c, s) && s.queue == [] && Logged(s, expanded) && TracedState(c, roots, s) && Told(c, s.edges, expanded, false)
    requires g.nodes == s.nodes && g.edges == s.edges && g.omitted.nodeLimit == s.nodeLimit
    ensures FromExpanded(c, roots, g, expanded)
  {
    hide Safe, Logged, Traced, Told;
    ExpandedAreWalked(s, expanded);
    DistinctCount(expanded);
    WalkedBound(c, s);
    SafeGraph(c, s);
  }

  lemma ToldAnyway(c: Config, edges: map<EdgeKey, seq<Site>>, expanded: seq<Side>, first: bool)
    requires Told(c, edges, expanded, first)
    ensures Told(c, edges, expanded, false)
  {
    hide Tells, FollowsEdge;
    forall key | key in edges ensures exists i: nat :: ToldAt(c, expanded, i, key, edges[key], false) {
      var i: nat :| ToldAt(c, expanded, i, key, edges[key], first);
      assert ToldAt(c, expanded, i, key, edges[key], false);
    }
  }

  lemma Deliver(c: Config, roots: seq<Id>, s: State, front: nat, beyond: set<Side>, expanded: seq<Side>, g: Graph)
    requires Safe(c, s) && s.queue == [] && Logged(s, expanded) && TracedState(c, roots, s) && ExactWhenPromised(c, roots, s, front, beyond)
    requires Told(c, s.edges, expanded, Agrees(c) && !s.nodeLimit)
    requires g.nodes == s.nodes && g.edges == s.edges && g.omitted == Omitted(s.nodeLimit, |beyond|)
    requires forall side :: side in beyond ==> side in expanded
    ensures Bounded(c.opts, g) && FromExpanded(c, roots, g, expanded)
    ensures Agrees(c) ==> (g.omitted.nodeLimit <==> TooMany(Unexcluded(c, roots), roots))
    ensures Agrees(c) && !TooMany(Unexcluded(c, roots), roots) ==>
      ExactGraph(Unexcluded(c, roots), roots, g, expanded, beyond) && Told(c, g.edges, expanded, true)
  {
    hide Safe, Logged, ExactSoFar, Agrees, ExactGraph, TracedState, FromExpanded, Unexcluded, TooMany, Told;
    ToldAnyway(c, s.edges, expanded, Agrees(c) && !s.nodeLimit);
    AllFromExpanded(c, roots, s, expanded, g);
    SafeGraph(c, s);
    if Agrees(c) && !s.nodeLimit {
      SameWalk(c, roots, s);
      SameDepth(c, roots);
      EndExactly(Unexcluded(c, roots), roots, s, front, beyond, expanded, g);
      ExactReach(Unexcluded(c, roots), roots, g, expanded, beyond);
      ExactIsNotTooMany(Unexcluded(c, roots), roots, g.nodes);
    }
  }

  lemma ExactReach(c: Config, roots: seq<Id>, g: Graph, expanded: seq<Side>, beyond: set<Side>)
    requires ExactGraph(c, roots, g, expanded, beyond)
    ensures forall id :: InReach(c, roots, id) ==> id in g.nodes
  {
    hide InReach, ShortestDepth, FollowedEdge, WithinDepth, LeavesGraph;
  }

  // ------------------------------------------------------ what a graph says

  /** One node's list of steps names another node by an edge of this type and kind. */
  ghost predicate Names(steps: Id -> seq<Step>, id: Id, other: Id, edgeType: string, kind: string) {
    exists step :: step in steps(id) && step.node.id == other && step.edgeType == edgeType && step.kind == kind
  }

  /** A node is among the callers of what it calls, and among the callees of what calls it. */
  ghost predicate Mirrored(src: Source) {
    forall x, y, edgeType, kind :: Names(src.callees, x, y, edgeType, kind) <==> Names(src.callers, y, x, edgeType, kind)
  }

  /** Whichever way an edge was followed, it leads from the node that calls to the node called. */
  lemma EdgesAreCalls(c: Config, roots: seq<Id>, g: Graph, expanded: seq<Side>, key: EdgeKey)
    requires Mirrored(c.src) && FromExpanded(c, roots, g, expanded) && key in g.edges
    ensures Names(c.src.callees, key.source, key.target, key.edgeType, key.kind)
    ensures OfFollowedType(c, key.edgeType)
  {
    hide Told, Refused, SidesTraced, AllWalked, FollowedStep;
    assert FollowedFrom(c, (set side | side in expanded), key);
    var e, step :| FollowedStep(c, e, step) && key == KeyOf(e, step);
    FollowedIsNamed(c, e, step);
  }

  lemma FollowedIsNamed(c: Config, e: Side, step: Step)
    requires Mirrored(c.src) && FollowedStep(c, e, step)
    ensures var key := KeyOf(e, step); Names(c.src.callees, key.source, key.target, key.edgeType, key.kind) && Follows(c.opts.access, key.edgeType)
  {
    assert step in StepsOf(c, e);
    var steps := if e.way.Out? then c.src.callees else c.src.callers;
    assert Names(steps, e.id, step.node.id, step.edgeType, step.kind);
  }

  /** The type is one that the options follow: any, one listed, or with calls their dispatches. */
  predicate OfFollowedType(c: Config, edgeType: string) {
    c.opts.access == [] || edgeType in c.opts.access || (edgeType == "dispatch" && "call" in c.opts.access)
  }

  /** The end of the edge whose expansion that way shows it. */
  function NearSide(key: EdgeKey, way: Way): Side {
    Side(if way.Out? then key.source else key.target, way)
  }

  lemma NamedIsFollowed(c: Config, key: EdgeKey, way: Way) returns (step: Step)
    requires Mirrored(c.src) && Names(c.src.callees, key.source, key.target, key.edgeType, key.kind) && OfFollowedType(c, key.edgeType)
    ensures FollowedStep(c, NearSide(key, way), step) && key == KeyOf(NearSide(key, way), step)
  {
    var side, far := NearSide(key, way), if way.Out? then key.target else key.source;
    assert Names(if way.Out? then c.src.callees else c.src.callers, side.id, far, key.edgeType, key.kind);
    step :| step in StepsOf(c, side) && step.node.id == far && step.edgeType == key.edgeType && step.kind == key.kind;
  }

  /** An exact graph draws exactly the calls between its nodes, of the types followed, that one end's expanded side shows. */
  lemma DrawsExactlyTheCalls(c: Config, roots: seq<Id>, nodes: map<Id, Placed>, edges: set<EdgeKey>, walked: set<Side>, key: EdgeKey)
    requires Mirrored(c.src) && Exact(c, roots, nodes, edges, walked)
    ensures key in edges <==>
      && key.source in nodes && key.target in nodes
      && Names(c.src.callees, key.source, key.target, key.edgeType, key.kind) && OfFollowedType(c, key.edgeType)
      && (Side(key.source, Out) in walked || Side(key.target, In) in walked)
  {
    hide InReach, ShortestDepth, Names, Mirrored, OfFollowedType, WithinDepth, Resolved, StepsOf, Follows;
    if key in edges {
      var side, step :| WithinDepth(c, roots, side) && Resolved(c, side.id) && FollowedStep(c, side, step) && key == KeyOf(side, step);
      FollowedIsNamed(c, side, step);
      FollowedIsOfType(c, key.edgeType);
      assert side in walked && (side == Side(key.source, Out) || side == Side(key.target, In));
    }
    if Names(c.src.callees, key.source, key.target, key.edgeType, key.kind) && OfFollowedType(c, key.edgeType) {
      var called := NamedIsFollowed(c, key, Out);
      var calling := NamedIsFollowed(c, key, In);
    }
  }

  lemma FollowedIsOfType(c: Config, edgeType: string)
    ensures Follows(c.opts.access, edgeType) ==> OfFollowedType(c, edgeType)
  {
  }

  /** Nothing is expanded against the direction asked for, and no node is excluded but a root. */
  lemma ExpandedAsAsked(c: Config, roots: seq<Id>, g: Graph, expanded: seq<Side>)
    requires FromExpanded(c, roots, g, expanded)
    ensures forall side :: side in expanded ==>
      side.id in g.nodes && (c.opts.direction.Callees? ==> side.way.Out?) && (c.opts.direction.Callers? ==> side.way.In?)
    ensures forall id :: id in g.nodes && id !in roots && c.opts.exclude.Exclude? ==> !c.opts.exclude.excluded(g.nodes[id].node)
  {
    hide Told, Refused, FollowedFrom;
  }
}
