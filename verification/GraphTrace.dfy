/**
 * Where everything in a bounded graph comes from (graph/build.go:93-219), in every
 * walk: whatever the source says of its nodes, whatever is excluded, and whether
 * the node limit is met or not.
 */
module GraphTrace {
  import opened GraphModel
  import opened GraphWalk
  import opened GraphSearch

  /** The node is as a followed step of a walked side reports it. */
  ghost predicate Reported(c: Config, walked: set<Side>, node: Node) {
    exists e, step :: e in walked && FollowedStep(c, e, step) && step.node == node
  }

  /** A root as the source describes it, or a node that is not excluded as some step reports it. */
  ghost predicate NodeTraced(c: Config, roots: seq<Id>, walked: set<Side>, id: Id, node: Node) {
    || (id in roots && node == c.src.describe(id))
    || (Keeps(c.opts.exclude, node) && Reported(c, walked, node))
  }

  ghost predicate ContentsTraced(c: Config, roots: seq<Id>, nodes: map<Id, Placed>, edges: set<EdgeKey>, walked: set<Side>) {
    && (forall id :: id in nodes ==> NodeTraced(c, roots, walked, id, nodes[id].node))
    && (forall key :: key in edges ==> FollowedFrom(c, walked, key))
  }

  /** Only resolved nodes of the graph are walked, in requested directions. */
  ghost predicate SidesTraced(c: Config, nodes: map<Id, Placed>, walked: set<Side>) {
    forall side :: side in walked ==> side.id in nodes && !nodes[side.id].node.unresolved && Requested(c.opts.direction, side.way)
  }

  ghost predicate SomeWayWalked(walked: set<Side>, id: Id) {
    exists way: Way :: Side(id, way) in walked
  }

  /** Every resolved node is walked in some direction. */
  ghost predicate AllWalked(nodes: map<Id, Placed>, walked: set<Side>) {
    forall id :: id in nodes && !nodes[id].node.unresolved ==> SomeWayWalked(walked, id)
  }

  /** Every node and every edge comes from a root or from a walked side, and exactly the resolved nodes are walked. */
  ghost predicate Traced(c: Config, roots: seq<Id>, nodes: map<Id, Placed>, edges: set<EdgeKey>, walked: set<Side>) {
    && ContentsTraced(c, roots, nodes, edges, walked)
    && SidesTraced(c, nodes, walked)
    && AllWalked(nodes, walked)
  }

  /** A root, or a node that is not excluded and that a walked side leads to, is not in the graph. */
  ghost predicate LeftOut(c: Config, roots: seq<Id>, nodes: map<Id, Placed>, walked: set<Side>, node: Node) {
    node.id !in nodes && (node.id in roots || (Keeps(c.opts.exclude, node) && Reported(c, walked, node)))
  }

  /** The graph is full, and a node met all the same is left out. */
  ghost predicate Refused(c: Config, roots: seq<Id>, nodes: map<Id, Placed>, walked: set<Side>) {
    |nodes| >= c.opts.limit && exists node :: LeftOut(c, roots, nodes, walked, node)
  }

  ghost predicate TracedState(c: Config, roots: seq<Id>, s: State) {
    Traced(c, roots, s.nodes, s.edges.Keys, s.walked) && (s.nodeLimit ==> Refused(c, roots, s.nodes, s.walked))
  }

  lemma NothingTraced(c: Config, roots: seq<Id>)
    ensures TracedState(c, roots, State(map[], map[], [], {}, map[], false))
  {
  }

  lemma ContentsStay(c: Config, roots: seq<Id>, nodes: map<Id, Placed>, edges: set<EdgeKey>, walked: set<Side>, more: set<Side>)
    requires ContentsTraced(c, roots, nodes, edges, walked) && walked <= more
    ensures ContentsTraced(c, roots, nodes, edges, more)
  {
    hide FollowedStep, Keeps;
  }

  /** What stays of being traced until a new node is queued. */
  ghost predicate Placing(c: Config, roots: seq<Id>, s: State) {
    ContentsTraced(c, roots, s.nodes, s.edges.Keys, s.walked) && SidesTraced(c, s.nodes, s.walked)
  }

  lemma NodePlaced(c: Config, roots: seq<Id>, s: State, node: Node, depth: int)
    requires Placing(c, roots, s) && node.id !in s.nodes && NodeTraced(c, roots, s.walked, node.id, node)
    ensures Placing(c, roots, s.(nodes := s.nodes[node.id := Placed(node, depth)]))
  {
    hide NodeTraced, FollowedFrom, Requested;
  }

  lemma EnqueuedSides(c: Config, s: State, id: Id, depth: int, way: Way)
    requires SidesTraced(c, s.nodes, s.walked) && id in s.nodes && Requested(c.opts.direction, way)
    ensures var t := Enqueued(s, id, depth, way);
            && SidesTraced(c, s.nodes, t.walked) && t.nodes == s.nodes && t.edges == s.edges && s.walked <= t.walked
            && (s.nodes[id].node.unresolved || Side(id, way) in t.walked)
  {
    hide Requested;
  }

  lemma EnqueuedPlacing(c: Config, roots: seq<Id>, s: State, id: Id, depth: int, way: Way)
    requires Placing(c, roots, s) && id in s.nodes && Requested(c.opts.direction, way)
    ensures var t := Enqueued(s, id, depth, way);
            && Placing(c, roots, t) && t.nodes == s.nodes && t.edges == s.edges && s.walked <= t.walked
            && (s.nodes[id].node.unresolved || Side(id, way) in t.walked)
  {
    hide ContentsTraced, SidesTraced, Requested, Enqueued;
    EnqueuedSides(c, s, id, depth, way);
    ContentsStay(c, roots, s.nodes, s.edges.Keys, s.walked, Enqueued(s, id, depth, way).walked);
  }

  lemma AddedPlacing(c: Config, roots: seq<Id>, s: State, node: Node, depth: int)
    requires Placing(c, roots, s) && node.id !in s.nodes && NodeTraced(c, roots, s.walked, node.id, node)
    ensures var t := Added(c, s, node, depth);
            && Placing(c, roots, t) && t.nodes == s.nodes[node.id := Placed(node, depth)] && t.edges == s.edges && s.walked <= t.walked
            && (depth == 0 ==> node.unresolved || SomeWayWalked(t.walked, node.id))
  {
    hide Enqueued, Placing, NodeTraced;
    NodePlaced(c, roots, s, node, depth);
    var t := s.(nodes := s.nodes[node.id := Placed(node, depth)]);
    if !node.unresolved {
      var u := t;
      if depth >= 0 && c.opts.direction != Callers {
        EnqueuedPlacing(c, roots, t, node.id, depth, Out);
        u := Enqueued(t, node.id, depth, Out);
      }
      if depth <= 0 && c.opts.direction != Callees {
        EnqueuedPlacing(c, roots, u, node.id, depth, In);
      }
    }
  }

  lemma OthersWalked(s: State, t: State, id: Id)
    requires AllWalked(s.nodes, s.walked) && s.walked <= t.walked
    requires forall other :: other in t.nodes && other != id ==> other in s.nodes && t.nodes[other] == s.nodes[other]
    requires id in t.nodes && !t.nodes[id].node.unresolved ==> SomeWayWalked(t.walked, id)
    ensures AllWalked(t.nodes, t.walked)
  {
    forall other | other in t.nodes && !t.nodes[other].node.unresolved ensures SomeWayWalked(t.walked, other) {
      if other != id {
        assert SomeWayWalked(s.walked, other);
      }
    }
  }

  lemma AddedLimit(c: Config, s: State, node: Node, depth: int)
    ensures Added(c, s, node, depth).nodeLimit == s.nodeLimit
  {
  }

  lemma RootTraced(c: Config, roots: seq<Id>, s: State, id: Id)
    requires TracedState(c, roots, s) && id in roots && id !in s.nodes && c.src.describe(id).id == id && |s.nodes| < c.opts.limit
    ensures TracedState(c, roots, Added(c, s, c.src.describe(id), 0))
  {
    hide Added, Enqueued, ContentsTraced, SidesTraced, AllWalked, SomeWayWalked;
    AddedPlacing(c, roots, s, c.src.describe(id), 0);
    AddedLimit(c, s, c.src.describe(id), 0);
    OthersWalked(s, Added(c, s, c.src.describe(id), 0), id);
  }

  /** A root that finds the graph full is left out. */
  lemma RootRefused(c: Config, roots: seq<Id>, s: State, id: Id)
    requires TracedState(c, roots, s) && id in roots && id !in s.nodes && |s.nodes| >= c.opts.limit
    ensures TracedState(c, roots, s.(nodeLimit := true))
  {
    hide Traced, Reported, Keeps;
    assert LeftOut(c, roots, s.nodes, s.walked, Node(id, false, ""));
  }

  lemma RecordedTraced(c: Config, roots: seq<Id>, s: State, key: EdgeKey, sites: seq<Site>)
    requires Placing(c, roots, s) && FollowedFrom(c, s.walked, key)
    ensures var t := Recorded(s, key, sites);
            Placing(c, roots, t) && t.nodes == s.nodes && t.walked == s.walked
  {
    hide NodeTraced, FollowedFrom, SidesTraced;
  }

  /** One followed step that is kept. */
  lemma TakenTraced(c: Config, roots: seq<Id>, s: State, walk: Walk, key: EdgeKey, merged: Step, step: Step)
    requires TracedState(c, roots, s) && SideOf(walk) in s.walked && StandsFor(c, SideOf(walk), key, merged, step)
    requires merged.node.id in s.nodes || Keeps(c.opts.exclude, merged.node)
    ensures TracedState(c, roots, Taken(c, s, walk, key, merged))
  {
    var id, depth := merged.node.id, walk.depth + Sign(walk.way);
    assert FollowedFrom(c, s.walked, key);
    assert Reported(c, s.walked, merged.node);
    assert Requested(c.opts.direction, walk.way) && Placing(c, roots, s);
    hide *;
    TakenPlacing(c, roots, s, walk, key, merged);
    TracedParts(c, roots, s);
    OthersWalked(s, Taken(c, s, walk, key, merged), id);
    TakenLimit(c, roots, s, walk, key, merged);
    TracedWhole(c, roots, Taken(c, s, walk, key, merged));
  }

  lemma TracedParts(c: Config, roots: seq<Id>, s: State)
    requires TracedState(c, roots, s)
    ensures Placing(c, roots, s) && AllWalked(s.nodes, s.walked) && (s.nodeLimit ==> Refused(c, roots, s.nodes, s.walked))
  {
  }

  lemma TracedWhole(c: Config, roots: seq<Id>, s: State)
    requires Placing(c, roots, s) && AllWalked(s.nodes, s.walked) && (s.nodeLimit ==> Refused(c, roots, s.nodes, s.walked))
    ensures TracedState(c, roots, s)
  {
  }

  /** Once the graph is full nothing joins it, so what is left out stays out. */
  lemma FullStays(c: Config, s: State, walk: Walk, key: EdgeKey, step: Step)
    requires s.nodeLimit ==> |s.nodes| >= c.opts.limit
    ensures var t := Taken(c, s, walk, key, step);
            && s.walked <= t.walked && (s.nodeLimit ==> t.nodeLimit)
            && (t.nodeLimit ==> t.nodes == s.nodes && |s.nodes| >= c.opts.limit && (s.nodeLimit || step.node.id !in s.nodes))
  {
    hide AtDepth;
  }

  lemma TakenLimit(c: Config, roots: seq<Id>, s: State, walk: Walk, key: EdgeKey, merged: Step)
    requires s.nodeLimit ==> Refused(c, roots, s.nodes, s.walked)
    requires Reported(c, s.walked, merged.node) && (merged.node.id in s.nodes || Keeps(c.opts.exclude, merged.node))
    ensures var t := Taken(c, s, walk, key, merged); t.nodeLimit ==> Refused(c, roots, t.nodes, t.walked)
  {
    hide Taken, Keeps, FollowedStep;
    FullStays(c, s, walk, key, merged);
    var t := Taken(c, s, walk, key, merged);
    if t.nodeLimit {
      var node := merged.node;
      if s.nodeLimit {
        node :| LeftOut(c, roots, s.nodes, s.walked, node);
      }
      if Reported(c, s.walked, node) {
        var e, step :| e in s.walked && FollowedStep(c, e, step) && step.node == node;
        assert e in t.walked;
      }
      assert LeftOut(c, roots, t.nodes, t.walked, node);
    }
  }

  lemma FollowedStill(c: Config, walked: set<Side>, more: set<Side>, key: EdgeKey)
    requires FollowedFrom(c, walked, key) && walked <= more
    ensures FollowedFrom(c, more, key)
  {
  }

  lemma SomeWay(walked: set<Side>, id: Id, way: Way)
    requires Side(id, way) in walked
    ensures SomeWayWalked(walked, id)
  {
  }

  lemma TakenPlacing(c: Config, roots: seq<Id>, s: State, walk: Walk, key: EdgeKey, merged: Step)
    requires Placing(c, roots, s) && AllWalked(s.nodes, s.walked) && Requested(c.opts.direction, walk.way)
    requires FollowedFrom(c, s.walked, key) && Reported(c, s.walked, merged.node)
    requires merged.node.id in s.nodes || Keeps(c.opts.exclude, merged.node)
    ensures var t, id := Taken(c, s, walk, key, merged), merged.node.id;
            && Placing(c, roots, t) && s.walked <= t.walked
            && (forall other :: other in t.nodes && other != id ==> other in s.nodes && t.nodes[other] == s.nodes[other])
            && (id in t.nodes && !t.nodes[id].node.unresolved ==> SomeWayWalked(t.walked, id))
  {
    hide Enqueued, Recorded, Added, Placing, Reported, FollowedFrom, SomeWayWalked, AtDepth, Requested, Keeps;
    var id, depth := merged.node.id, walk.depth + Sign(walk.way);
    if id in s.nodes {
      var t := s;
      if !AtDepth(c, walk) {
        EnqueuedPlacing(c, roots, s, id, depth, walk.way);
        t := Enqueued(s, id, depth, walk.way);
      }
      FollowedStill(c, s.walked, t.walked, key);
      RecordedTraced(c, roots, t, key, merged.sites);
      if !s.nodes[id].node.unresolved {
        StillWalked(s.walked, t.walked, id);
      }
    } else if !AtDepth(c, walk) && |s.nodes| < c.opts.limit {
      AddedPlacing(c, roots, s, merged.node, depth);
      var a := Added(c, s, merged.node, depth);
      EnqueuedPlacing(c, roots, a, id, depth, walk.way);
      var t := Enqueued(a, id, depth, walk.way);
      FollowedStill(c, s.walked, t.walked, key);
      RecordedTraced(c, roots, t, key, merged.sites);
      if !merged.node.unresolved {
        SomeWay(t.walked, id, walk.way);
      }
    } else {
      assert Taken(c, s, walk, key, merged) == s.(nodeLimit := Taken(c, s, walk, key, merged).nodeLimit);
      LimitPlacing(c, roots, s, Taken(c, s, walk, key, merged).nodeLimit);
    }
  }

  lemma LimitPlacing(c: Config, roots: seq<Id>, s: State, limit: bool)
    requires Placing(c, roots, s)
    ensures Placing(c, roots, s.(nodeLimit := limit))
  {
  }

  lemma StillWalked(walked: set<Side>, more: set<Side>, id: Id)
    requires SomeWayWalked(walked, id) && walked <= more
    ensures SomeWayWalked(more, id)
  {
  }
}
