/**
 * The state of a bounded walk and what one step does to it (graph/build.go:
 * enqueue, add, record and the body of follow), with the invariants the walk
 * keeps for every source.
 */
module GraphWalk {
  import opened GraphModel

  datatype Placed = Placed(node: Node, depth: int)

  datatype Walk = Walk(id: Id, depth: int, way: Way)

  /** The builder's fields; level is, for each walked side, how many edges from a root it was reached over. */
  datatype State = State(nodes: map<Id, Placed>, edges: map<EdgeKey, seq<Site>>, queue: seq<Walk>,
                         walked: set<Side>, level: map<Side, nat>, nodeLimit: bool)

  function Abs(x: int): nat {
    if x < 0 then -x else x
  }

  function SideOf(walk: Walk): Side {
    Side(walk.id, walk.way)
  }

  // ------------------------------------------------------------- one step

  function Enqueued(s: State, id: Id, depth: int, way: Way): State
    requires id in s.nodes
  {
    var side := Side(id, way);
    if side in s.walked || s.nodes[id].node.unresolved then s else
      s.(walked := s.walked + {side}, queue := s.queue + [Walk(id, depth, way)], level := s.level[side := Abs(depth)])
  }

  function Added(c: Config, s: State, node: Node, depth: int): State {
    var t := s.(nodes := s.nodes[node.id := Placed(node, depth)]);
    if node.unresolved then t else
      var u := if depth >= 0 && c.opts.direction != Callers then Enqueued(t, node.id, depth, Out) else t;
      if depth <= 0 && c.opts.direction != Callees then Enqueued(u, node.id, depth, In) else u
  }

  function Recorded(s: State, key: EdgeKey, sites: seq<Site>): State {
    if key in s.edges then s else s.(edges := s.edges[key := sites])
  }

  predicate AtDepth(c: Config, walk: Walk) {
    walk.depth == Sign(walk.way) * c.opts.depth
  }

  /** Following one merged step of a walk. */
  function Taken(c: Config, s: State, walk: Walk, key: EdgeKey, step: Step): State {
    var id, depth := step.node.id, walk.depth + Sign(walk.way);
    if id !in s.nodes then
      if AtDepth(c, walk) then s
      else if |s.nodes| >= c.opts.limit then s.(nodeLimit := true)
      else Recorded(Enqueued(Added(c, s, step.node, depth), id, depth, walk.way), key, step.sites)
    else
      Recorded(if AtDepth(c, walk) then s else Enqueued(s, id, depth, walk.way), key, step.sites)
  }

  // ------------------------------------------------------------- safety

  ghost predicate Placements(c: Config, nodes: map<Id, Placed>) {
    && |nodes| <= c.opts.limit
    && (forall id :: id in nodes ==> nodes[id].node.id == id && Abs(nodes[id].depth) <= c.opts.depth)
  }

  ghost predicate Leveled(c: Config, nodes: map<Id, Placed>, walked: set<Side>, level: map<Side, nat>) {
    && level.Keys == walked
    && (forall side :: side in walked ==>
          side.id in nodes && !nodes[side.id].node.unresolved && level[side] <= c.opts.depth)
  }

  ghost predicate QueueOk(queue: seq<Walk>, level: map<Side, nat>) {
    && (forall i :: 0 <= i < |queue| ==>
          SideOf(queue[i]) in level && queue[i].depth == Sign(queue[i].way) * level[SideOf(queue[i])])
    && (forall i, j :: 0 <= i < j < |queue| ==> SideOf(queue[i]) != SideOf(queue[j]))
  }

  ghost predicate InQueue(queue: seq<Walk>, side: Side) {
    exists i :: 0 <= i < |queue| && SideOf(queue[i]) == side
  }

  ghost predicate EndsPresent(nodes: map<Id, Placed>, edges: map<EdgeKey, seq<Site>>) {
    forall key :: key in edges ==> key.source in nodes && key.target in nodes
  }

  /** What every walk keeps, whatever the source and the exclusion. */
  ghost predicate Safe(c: Config, s: State) {
    && Placements(c, s.nodes)
    && Leveled(c, s.nodes, s.walked, s.level)
    && QueueOk(s.queue, s.level)
    && EndsPresent(s.nodes, s.edges)
  }

  ghost predicate NodesGrow(nodes: map<Id, Placed>, later: map<Id, Placed>) {
    forall id :: id in nodes ==> id in later && later[id] == nodes[id]
  }

  ghost predicate EdgesGrow(edges: map<EdgeKey, seq<Site>>, later: map<EdgeKey, seq<Site>>) {
    forall key :: key in edges ==> key in later && later[key] == edges[key]
  }

  ghost predicate LevelsGrow(level: map<Side, nat>, later: map<Side, nat>) {
    forall side :: side in level ==> side in later && later[side] == level[side]
  }

  /** Only sides that had not been walked join the queue, one for each newly walked side. */
  ghost predicate QueueGrows(s: State, t: State) {
    && s.walked <= t.walked
    && s.queue <= t.queue
    && (forall i :: |s.queue| <= i < |t.queue| ==> SideOf(t.queue[i]) !in s.walked)
    && (forall side :: side in t.walked ==> side in s.walked || InQueue(t.queue, side))
    && |t.walked| - |s.walked| == |t.queue| - |s.queue|
  }

  /** A later state has every node, edge and walked side of an earlier one, as they were. */
  ghost predicate Grows(s: State, t: State) {
    && NodesGrow(s.nodes, t.nodes)
    && EdgesGrow(s.edges, t.edges)
    && LevelsGrow(s.level, t.level)
    && QueueGrows(s, t)
    && (s.nodeLimit ==> t.nodeLimit)
  }

  /** s with its walks extended: nodes, edges and the limit flag are as they were. */
  ghost predicate OnlyQueued(s: State, t: State) {
    t.nodes == s.nodes && t.edges == s.edges && t.nodeLimit == s.nodeLimit
  }

  lemma EnqueuedQueue(queue: seq<Walk>, level: map<Side, nat>, walk: Walk)
    requires QueueOk(queue, level) && SideOf(walk) !in level && walk.depth == Sign(walk.way) * Abs(walk.depth)
    ensures QueueOk(queue + [walk], level[SideOf(walk) := Abs(walk.depth)])
  {
    var later, deeper := queue + [walk], level[SideOf(walk) := Abs(walk.depth)];
    forall i | 0 <= i < |later|
      ensures SideOf(later[i]) in deeper && later[i].depth == Sign(later[i].way) * deeper[SideOf(later[i])]
    {
      if i < |queue| {
        assert SideOf(queue[i]) in level;
      }
    }
  }

  lemma EnqueuedGrows(s: State, id: Id, depth: int, way: Way)
    requires id in s.nodes && s.level.Keys == s.walked
    ensures var t := Enqueued(s, id, depth, way);
            Grows(s, t) && OnlyQueued(s, t)
  {
    GrowsSelf(s);
    var t := Enqueued(s, id, depth, way);
    var side := Side(id, way);
    if side !in s.walked && !s.nodes[id].node.unresolved {
      assert |t.walked| == |s.walked| + 1;
      assert SideOf(t.queue[|s.queue|]) == side;
    }
  }

  lemma EnqueuedSafe(c: Config, s: State, id: Id, depth: int, way: Way)
    requires Leveled(c, s.nodes, s.walked, s.level) && QueueOk(s.queue, s.level) && id in s.nodes
    requires depth == Sign(way) * Abs(depth) && Abs(depth) <= c.opts.depth
    ensures var t := Enqueued(s, id, depth, way);
            && Leveled(c, t.nodes, t.walked, t.level) && QueueOk(t.queue, t.level)
            && Grows(s, t) && OnlyQueued(s, t)
  {
    hide QueueOk, Grows;
    EnqueuedGrows(s, id, depth, way);
    var side := Side(id, way);
    if side !in s.walked && !s.nodes[id].node.unresolved {
      EnqueuedQueue(s.queue, s.level, Walk(id, depth, way));
    }
  }

  lemma PlacedSafe(c: Config, s: State, node: Node, depth: int)
    requires Placements(c, s.nodes) && Leveled(c, s.nodes, s.walked, s.level)
    requires node.id !in s.nodes && |s.nodes| < c.opts.limit && Abs(depth) <= c.opts.depth
    ensures var nodes := s.nodes[node.id := Placed(node, depth)];
            Placements(c, nodes) && Leveled(c, nodes, s.walked, s.level) && Grows(s, s.(nodes := nodes))
  {
    PlacementsGrow(c, s.nodes, node, depth);
    LeveledStays(c, s.nodes, s.walked, s.level, node, depth);
    hide Placements, Leveled;
    GrowsSelf(s);
  }

  lemma PlacementsGrow(c: Config, nodes: map<Id, Placed>, node: Node, depth: int)
    requires Placements(c, nodes) && node.id !in nodes && |nodes| < c.opts.limit && Abs(depth) <= c.opts.depth
    ensures Placements(c, nodes[node.id := Placed(node, depth)])
  {
    hide Abs;
    var more := nodes[node.id := Placed(node, depth)];
    assert more.Keys == nodes.Keys + {node.id};
    assert |more| == |more.Keys| == |nodes.Keys| + 1;
  }

  lemma LeveledStays(c: Config, nodes: map<Id, Placed>, walked: set<Side>, level: map<Side, nat>, node: Node, depth: int)
    requires Leveled(c, nodes, walked, level) && node.id !in nodes
    ensures Leveled(c, nodes[node.id := Placed(node, depth)], walked, level)
  {
  }

  lemma AddedSafe(c: Config, s: State, node: Node, depth: int)
    requires Placements(c, s.nodes) && Leveled(c, s.nodes, s.walked, s.level) && QueueOk(s.queue, s.level)
    requires node.id !in s.nodes && |s.nodes| < c.opts.limit && Abs(depth) <= c.opts.depth
    ensures var t := Added(c, s, node, depth);
            && Placements(c, t.nodes) && Leveled(c, t.nodes, t.walked, t.level) && QueueOk(t.queue, t.level) && Grows(s, t)
            && t.nodes == s.nodes[node.id := Placed(node, depth)] && t.edges == s.edges && t.nodeLimit == s.nodeLimit
  {
    hide Enqueued, Placements, Leveled, QueueOk, Grows;
    PlacedSafe(c, s, node, depth);
    var t := s.(nodes := s.nodes[node.id := Placed(node, depth)]);
    if !node.unresolved {
      var u := t;
      if depth >= 0 && c.opts.direction != Callers {
        EnqueuedSafe(c, t, node.id, depth, Out);
        u := Enqueued(t, node.id, depth, Out);
        GrowsTrans(s, t, u);
      }
      if depth <= 0 && c.opts.direction != Callees {
        EnqueuedSafe(c, u, node.id, depth, In);
        GrowsTrans(s, u, Enqueued(u, node.id, depth, In));
      }
    }
  }

  lemma GrowsTrans(s: State, t: State, u: State)
    requires Grows(s, t) && Grows(t, u)
    ensures Grows(s, u)
  {
    forall side | side in u.walked && side !in s.walked ensures InQueue(u.queue, side) {
      if side in t.walked {
        var i :| 0 <= i < |t.queue| && SideOf(t.queue[i]) == side;
        assert SideOf(u.queue[i]) == side;
      }
    }
    forall i | |s.queue| <= i < |u.queue| ensures SideOf(u.queue[i]) !in s.walked {
      if i < |t.queue| {
        assert u.queue[i] == t.queue[i];
      }
    }
  }

  lemma GrowsSelf(s: State)
    ensures Grows(s, s) && Grows(s, s.(nodeLimit := true))
  {
  }

  lemma RecordedSafe(c: Config, s: State, key: EdgeKey, sites: seq<Site>)
    requires Safe(c, s) && key.source in s.nodes && key.target in s.nodes
    ensures var t := Recorded(s, key, sites);
            Safe(c, t) && Grows(s, t) && t.edges.Keys == s.edges.Keys + {key} && t == s.(edges := t.edges)
  {
    hide Placements, Leveled, QueueOk;
    GrowsSelf(s);
  }

  /** The depth of a walk's neighbours, when the walk is not at the depth bound. */
  lemma NextDepth(c: Config, walk: Walk, level: nat)
    requires walk.depth == Sign(walk.way) * level && level <= c.opts.depth
    ensures AtDepth(c, walk) <==> level == c.opts.depth
    ensures var depth := walk.depth + Sign(walk.way);
            Abs(depth) == level + 1 && depth == Sign(walk.way) * (level + 1)
  {
  }

  lemma TakenSafe(c: Config, s: State, walk: Walk, key: EdgeKey, step: Step)
    requires Safe(c, s) && SideOf(walk) in s.walked && walk.depth == Sign(walk.way) * s.level[SideOf(walk)]
    requires key == KeyOf(SideOf(walk), step)
    ensures Safe(c, Taken(c, s, walk, key, step)) && Grows(s, Taken(c, s, walk, key, step))
  {
    hide Enqueued, Recorded, Added, Grows, Placements, QueueOk, AtDepth;
    GrowsSelf(s);
    NextDepth(c, walk, s.level[SideOf(walk)]);
    var id, depth := step.node.id, walk.depth + Sign(walk.way);
    var t := s;
    if id !in s.nodes {
      if !AtDepth(c, walk) && |s.nodes| < c.opts.limit {
        AddedSafe(c, s, step.node, depth);
        var a := Added(c, s, step.node, depth);
        EnqueuedSafe(c, a, id, depth, walk.way);
        t := Enqueued(a, id, depth, walk.way);
        GrowsTrans(s, a, t);
        RecordedSafe(c, t, key, step.sites);
        GrowsTrans(s, t, Recorded(t, key, step.sites));
      }
    } else {
      if !AtDepth(c, walk) {
        EnqueuedSafe(c, s, id, depth, walk.way);
        t := Enqueued(s, id, depth, walk.way);
      }
      GrowsTrans(s, s, t);
      RecordedSafe(c, t, key, step.sites);
      GrowsTrans(s, t, Recorded(t, key, step.sites));
    }
  }

  /** There are at most two walks for each node. */
  lemma {:induction false} SidesBound(walked: set<Side>, ids: set<Id>)
    requires forall side :: side in walked ==> side.id in ids
    ensures |walked| <= 2 * |ids|
    decreases ids
  {
    if ids == {} {
      assert walked == {};
    } else {
      var id :| id in ids;
      var both := {Side(id, Out), Side(id, In)};
      forall side | side in walked - both ensures side.id in ids - {id} {
        match side.way
        case Out => assert side == Side(side.id, Out);
        case In => assert side == Side(side.id, In);
      }
      SidesBound(walked - both, ids - {id});
      SubsetSize(walked, (walked - both) + both);
    }
  }

  lemma {:induction false} SubsetSize<T>(a: set<T>, b: set<T>)
    requires a <= b
    ensures |a| <= |b|
    decreases a
  {
    if a != {} {
      var x :| x in a;
      SubsetSize(a - {x}, b - {x});
    }
  }

  lemma WalkedBound(c: Config, s: State)
    requires Safe(c, s)
    ensures |s.walked| <= 2 * c.opts.limit
  {
    SidesBound(s.walked, s.nodes.Keys);
  }
}
