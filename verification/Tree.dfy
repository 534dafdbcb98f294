/**
 * A graph drawn as a tree (graph/pretty.go:104-199): from a root, every edge of
 * one direction is a line, and the node at its far end is expanded on the first
 * line that reaches it at its breadth-first depth.
 */
module Tree {
  import opened Common
  import opened Walks
  import opened BreadthFirst

  type Id = string

  /** The text stands for everything that tells apart the edges between two nodes. */
  datatype Edge = Edge(source: Id, target: Id, text: string)

  datatype Way = Outgoing | Incoming

  function Near(way: Way, edge: Edge): Id {
    if way.Outgoing? then edge.source else edge.target
  }

  function Far(way: Way, edge: Edge): Id {
    if way.Outgoing? then edge.target else edge.source
  }

  /** The edges that leave a node one way, in the graph's order. */
  function Leaving(edges: seq<Edge>, way: Way, id: Id): seq<Edge> {
    if edges == [] then [] else
      var n := |edges| - 1;
      var rest := Leaving(edges[..n], way, id);
      if Near(way, edges[n]) == id then rest + [edges[n]] else rest
  }

  lemma {:induction false} LeavingCounts(edges: seq<Edge>, way: Way, id: Id, e: Edge)
    ensures multiset(Leaving(edges, way, id))[e] == if Near(way, e) == id then multiset(edges)[e] else 0
    ensures e in Leaving(edges, way, id) <==> e in edges && Near(way, e) == id
  {
    if edges != [] {
      var n := |edges| - 1;
      LeavingCounts(edges[..n], way, id, e);
      assert edges == edges[..n] + [edges[n]];
    }
  }

  function Neighbours(edges: seq<Edge>, way: Way, id: Id): seq<Id> {
    var leaving := Leaving(edges, way, id);
    seq(|leaving|, i requires 0 <= i < |leaving| => Far(way, leaving[i]))
  }

  ghost function Next(edges: seq<Edge>, way: Way): Id -> seq<Id> {
    (id: Id) => Neighbours(edges, way, id)
  }

  lemma FarIsNeighbour(edges: seq<Edge>, way: Way, id: Id, y: Id)
    ensures y in Next(edges, way)(id) <==> exists e :: e in Leaving(edges, way, id) && Far(way, e) == y
  {
    var leaving := Leaving(edges, way, id);
    if e :| e in leaving && Far(way, e) == y {
      var i :| 0 <= i < |leaving| && leaving[i] == e;
      assert Neighbours(edges, way, id)[i] == y;
    }
    if y in Neighbours(edges, way, id) {
      var i :| 0 <= i < |leaving| && Neighbours(edges, way, id)[i] == y;
      assert leaving[i] in leaving;
    }
  }

  function At(index: map<Id, seq<Edge>>, id: Id): seq<Edge> {
    if id in index then index[id] else []
  }

  ghost predicate Indexes(index: map<Id, seq<Edge>>, edges: seq<Edge>, way: Way) {
    forall id :: At(index, id) == Leaving(edges, way, id)
  }

  // ------------------------------------------------------- the drawn lines

  /** A line draws an edge; the node at its far end is expanded here, elsewhere, or has no edges. */
  datatype Line = Expanded(edge: Edge, children: seq<Line>) | Elsewhere(edge: Edge) | Plain(edge: Edge)

  /** The nodes the lines expand, at any depth. */
  function Expansions(way: Way, lines: seq<Line>): seq<Id> {
    if lines == [] then [] else
      var n := |lines| - 1;
      Expansions(way, lines[..n])
      + match lines[n]
        case Expanded(e, children) => [Far(way, e)] + Expansions(way, children)
        case _ => []
  }

  /** The edges the lines draw, at any depth. */
  function Drawn(lines: seq<Line>): seq<Edge> {
    if lines == [] then [] else
      var n := |lines| - 1;
      Drawn(lines[..n])
      + [lines[n].edge]
      + match lines[n]
        case Expanded(_, children) => Drawn(children)
        case _ => []
  }

  /** Each line hangs under the node its edge leaves, each expanded node at its own depth. */
  ghost predicate Hung(edges: seq<Edge>, way: Way, depths: map<Id, nat>, parent: Id, depth: nat, lines: seq<Line>)
    decreases lines
  {
    forall i :: 0 <= i < |lines| ==>
      var far := Far(way, lines[i].edge);
      && Near(way, lines[i].edge) == parent
      && (lines[i].Elsewhere? ==> Leaving(edges, way, far) != [])
      && (lines[i].Plain? ==> Leaving(edges, way, far) == [])
      && (lines[i].Expanded? ==> far in depths && depths[far] == depth && Hung(edges, way, depths, far, depth + 1, lines[i].children))
  }

  /** All edges that leave the nodes, node by node. */
  function AllLeaving(edges: seq<Edge>, way: Way, ids: seq<Id>): seq<Edge> {
    if ids == [] then [] else AllLeaving(edges, way, ids[..|ids| - 1]) + Leaving(edges, way, ids[|ids| - 1])
  }

  lemma {:induction false} AllLeavingAppends(edges: seq<Edge>, way: Way, a: seq<Id>, b: seq<Id>)
    ensures AllLeaving(edges, way, a + b) == AllLeaving(edges, way, a) + AllLeaving(edges, way, b)
  {
    hide Leaving;
    if b == [] {
      assert a + b == a;
    } else {
      var n := |b| - 1;
      assert (a + b)[..|a + b| - 1] == a + b[..n];
      AllLeavingAppends(edges, way, a, b[..n]);
    }
  }

  /** Distinct nodes draw each edge that leaves one of them as often as the graph has it. */
  lemma {:induction false} AllLeavingCounts(edges: seq<Edge>, way: Way, ids: seq<Id>, e: Edge)
    requires Distinct(ids)
    ensures multiset(AllLeaving(edges, way, ids))[e] == if Near(way, e) in ids then multiset(edges)[e] else 0
  {
    hide Leaving;
    if ids != [] {
      var n := |ids| - 1;
      AllLeavingCounts(edges, way, ids[..n], e);
      LeavingCounts(edges, way, ids[n], e);
      assert ids == ids[..n] + [ids[n]];
    }
  }

  /** An edge that leads one level further from the root. */
  ghost predicate Tight(way: Way, depths: map<Id, nat>, edge: Edge) {
    var near, far := Near(way, edge), Far(way, edge);
    near in depths && far in depths && depths[far] == depths[near] + 1
  }

  /** Each of these tight edges leads to an expanded node. */
  ghost predicate Covered(way: Way, depths: map<Id, nat>, expanded: set<Id>, leaving: seq<Edge>) {
    forall e :: e in leaving && Tight(way, depths, e) ==> Far(way, e) in expanded
  }

  /** The lines expand exactly the nodes that became expanded, each once. */
  ghost predicate ExpandsOnce(way: Way, before: set<Id>, after: set<Id>, lines: seq<Line>) {
    && before <= after
    && Distinct(Expansions(way, lines))
    && (forall x :: x in Expansions(way, lines) <==> x in after && x !in before)
  }

  /** The lines draw the given edges, and those that leave the nodes they expand. */
  ghost predicate DrawsAll(edges: seq<Edge>, way: Way, drawn: seq<Edge>, lines: seq<Line>) {
    multiset(Drawn(lines)) == multiset(drawn) + multiset(AllLeaving(edges, way, Expansions(way, lines)))
  }

  ghost predicate AllCovered(edges: seq<Edge>, way: Way, depths: map<Id, nat>, before: set<Id>, after: set<Id>) {
    forall x :: x in after && x !in before ==> Covered(way, depths, after, Leaving(edges, way, x))
  }

  /** What holds once the lines of some of a node's edges are drawn. */
  ghost predicate Part(edges: seq<Edge>, way: Way, depths: map<Id, nat>, parent: Id, before: set<Id>, after: set<Id>, drawn: seq<Edge>, lines: seq<Line>) {
    && parent in depths && after <= depths.Keys
    && ExpandsOnce(way, before, after, lines)
    && Hung(edges, way, depths, parent, depths[parent] + 1, lines)
    && DrawsAll(edges, way, drawn, lines)
    && Covered(way, depths, after, drawn)
    && AllCovered(edges, way, depths, before, after)
  }

  lemma PartEmpty(edges: seq<Edge>, way: Way, depths: map<Id, nat>, parent: Id, before: set<Id>)
    requires parent in depths && before <= depths.Keys
    ensures Part(edges, way, depths, parent, before, before, [], [])
  {
    assert AllLeaving(edges, way, []) == [];
  }

  lemma LeafAppends(way: Way, lines: seq<Line>, line: Line)
    requires !line.Expanded?
    ensures Drawn(lines + [line]) == Drawn(lines) + [line.edge]
    ensures Expansions(way, lines + [line]) == Expansions(way, lines)
  {
    assert (lines + [line])[..|lines|] == lines;
  }

  lemma ExpandedAppends(way: Way, lines: seq<Line>, line: Line)
    requires line.Expanded?
    ensures Drawn(lines + [line]) == Drawn(lines) + [line.edge] + Drawn(line.children)
    ensures Expansions(way, lines + [line]) == Expansions(way, lines) + ([Far(way, line.edge)] + Expansions(way, line.children))
  {
    assert (lines + [line])[..|lines|] == lines;
  }

  /** Where a line that hangs under parent belongs. */
  ghost predicate HungLine(edges: seq<Edge>, way: Way, depths: map<Id, nat>, parent: Id, depth: nat, line: Line) {
    var far := Far(way, line.edge);
    && Near(way, line.edge) == parent
    && (line.Elsewhere? ==> Leaving(edges, way, far) != [])
    && (line.Plain? ==> Leaving(edges, way, far) == [])
    && (line.Expanded? ==> far in depths && depths[far] == depth && Hung(edges, way, depths, far, depth + 1, line.children))
  }

  lemma HungAppends(edges: seq<Edge>, way: Way, depths: map<Id, nat>, parent: Id, depth: nat, lines: seq<Line>, line: Line)
    requires Hung(edges, way, depths, parent, depth, lines) && HungLine(edges, way, depths, parent, depth, line)
    ensures Hung(edges, way, depths, parent, depth, lines + [line])
  {
    hide Leaving;
    var longer := lines + [line];
    forall i | 0 <= i < |longer| ensures HungLine(edges, way, depths, parent, depth, longer[i]) {
      if i < |lines| {
        assert longer[i] == lines[i];
      }
    }
    hide Far, Near;
  }

  lemma CoverAppends(way: Way, depths: map<Id, nat>, expanded: set<Id>, leaving: seq<Edge>, e: Edge)
    requires Covered(way, depths, expanded, leaving) && (Tight(way, depths, e) ==> Far(way, e) in expanded)
    ensures Covered(way, depths, expanded, leaving + [e])
  {
    hide Tight;
  }

  lemma CoverGrows(way: Way, depths: map<Id, nat>, expanded: set<Id>, larger: set<Id>, leaving: seq<Edge>)
    requires Covered(way, depths, expanded, leaving) && expanded <= larger
    ensures Covered(way, depths, larger, leaving)
  {
    hide Tight;
  }

  lemma PartParts(edges: seq<Edge>, way: Way, depths: map<Id, nat>, parent: Id, before: set<Id>, after: set<Id>, drawn: seq<Edge>, lines: seq<Line>)
    requires Part(edges, way, depths, parent, before, after, drawn, lines)
    ensures parent in depths && before <= after <= depths.Keys && ExpandsOnce(way, before, after, lines)
    ensures Hung(edges, way, depths, parent, depths[parent] + 1, lines) && DrawsAll(edges, way, drawn, lines)
    ensures Covered(way, depths, after, drawn) && AllCovered(edges, way, depths, before, after)
  {
    hide Hung, DrawsAll, Covered, AllCovered;
  }

  lemma PartWhole(edges: seq<Edge>, way: Way, depths: map<Id, nat>, parent: Id, before: set<Id>, after: set<Id>, drawn: seq<Edge>, lines: seq<Line>)
    requires parent in depths && after <= depths.Keys && ExpandsOnce(way, before, after, lines)
    requires Hung(edges, way, depths, parent, depths[parent] + 1, lines) && DrawsAll(edges, way, drawn, lines)
    requires Covered(way, depths, after, drawn) && AllCovered(edges, way, depths, before, after)
    ensures Part(edges, way, depths, parent, before, after, drawn, lines)
  {
    hide Hung, DrawsAll, Covered, AllCovered, ExpandsOnce;
  }

  lemma ExpandsLeaf(way: Way, before: set<Id>, after: set<Id>, lines: seq<Line>, line: Line)
    requires !line.Expanded? && ExpandsOnce(way, before, after, lines)
    ensures ExpandsOnce(way, before, after, lines + [line])
  {
    LeafAppends(way, lines, line);
    hide Expansions;
  }

  lemma DrawsLeaf(edges: seq<Edge>, way: Way, drawn: seq<Edge>, lines: seq<Line>, line: Line)
    requires !line.Expanded? && DrawsAll(edges, way, drawn, lines)
    ensures DrawsAll(edges, way, drawn + [line.edge], lines + [line])
  {
    LeafAppends(way, lines, line);
    hide Expansions, Drawn, AllLeaving;
  }

  /** A line whose far end is not expanded adds its edge and nothing else. */
  lemma PartLeaf(edges: seq<Edge>, way: Way, depths: map<Id, nat>, parent: Id, before: set<Id>, after: set<Id>,
                 drawn: seq<Edge>, lines: seq<Line>, line: Line)
    requires Part(edges, way, depths, parent, before, after, drawn, lines) && !line.Expanded?
    requires HungLine(edges, way, depths, parent, depths[parent] + 1, line)
    requires Tight(way, depths, line.edge) ==> Far(way, line.edge) in after
    ensures Part(edges, way, depths, parent, before, after, drawn + [line.edge], lines + [line])
  {
    hide *;
    PartParts(edges, way, depths, parent, before, after, drawn, lines);
    ExpandsLeaf(way, before, after, lines, line);
    DrawsLeaf(edges, way, drawn, lines, line);
    HungAppends(edges, way, depths, parent, depths[parent] + 1, lines, line);
    CoverAppends(way, depths, after, drawn, line.edge);
    PartWhole(edges, way, depths, parent, before, after, drawn + [line.edge], lines + [line]);
  }

  lemma DistinctAppends(a: seq<Id>, x: Id, b: seq<Id>)
    requires Distinct(a) && Distinct(b) && x !in a && x !in b && forall y :: y in b ==> y !in a
    ensures Distinct(a + ([x] + b))
  {
    var c := a + ([x] + b);
    forall i, j | 0 <= i < j < |c| ensures c[i] != c[j] {
      if j > |a| {
        assert c[j] == b[j - |a| - 1] && c[j] in b;
        assert i > |a| ==> c[i] == b[i - |a| - 1];
      }
    }
  }

  lemma ExpandsLine(way: Way, before: set<Id>, middle: set<Id>, after: set<Id>, lines: seq<Line>, line: Line, far: Id)
    requires line.Expanded? && Far(way, line.edge) == far && far !in middle
    requires ExpandsOnce(way, before, middle, lines) && ExpandsOnce(way, middle + {far}, after, line.children)
    ensures ExpandsOnce(way, before, after, lines + [line])
  {
    ExpandedAppends(way, lines, line);
    DistinctAppends(Expansions(way, lines), far, Expansions(way, line.children));
    hide Expansions, Far, Distinct;
  }

  lemma DrawsLine(edges: seq<Edge>, way: Way, drawn: seq<Edge>, lines: seq<Line>, line: Line, far: Id)
    requires line.Expanded? && Far(way, line.edge) == far
    requires DrawsAll(edges, way, drawn, lines) && DrawsAll(edges, way, Leaving(edges, way, far), line.children)
    ensures DrawsAll(edges, way, drawn + [line.edge], lines + [line])
  {
    ExpandedAppends(way, lines, line);
    var kept, inner := Expansions(way, lines), Expansions(way, line.children);
    AllLeavingAppends(edges, way, kept, [far] + inner);
    AllLeavingAppends(edges, way, [far], inner);
    AllLeavingOne(edges, way, far);
    hide Leaving, AllLeaving, Expansions, Drawn, Far;
  }

  lemma AllLeavingOne(edges: seq<Edge>, way: Way, id: Id)
    ensures AllLeaving(edges, way, [id]) == Leaving(edges, way, id)
  {
    hide Leaving;
    assert [id][..0] == [];
    assert AllLeaving(edges, way, []) == [];
  }

  lemma CoverLine(edges: seq<Edge>, way: Way, depths: map<Id, nat>, before: set<Id>, middle: set<Id>, after: set<Id>, far: Id)
    requires middle + {far} <= after && AllCovered(edges, way, depths, before, middle) && AllCovered(edges, way, depths, middle + {far}, after)
    requires Covered(way, depths, after, Leaving(edges, way, far))
    ensures AllCovered(edges, way, depths, before, after)
  {
    hide Covered, Leaving;
    forall x | x in after && x !in before ensures Covered(way, depths, after, Leaving(edges, way, x)) {
      if x in middle {
        CoverGrows(way, depths, middle, after, Leaving(edges, way, x));
      }
    }
  }

  lemma HungExpanded(edges: seq<Edge>, way: Way, depths: map<Id, nat>, parent: Id, line: Line)
    requires line.Expanded? && Near(way, line.edge) == parent && Tight(way, depths, line.edge)
    requires Far(way, line.edge) in depths && parent in depths
    requires Hung(edges, way, depths, Far(way, line.edge), depths[Far(way, line.edge)] + 1, line.children)
    ensures HungLine(edges, way, depths, parent, depths[parent] + 1, line)
  {
    hide Leaving, Hung;
  }

  /** A line that expands its far end adds that node and everything expanded below it. */
  lemma PartLine(edges: seq<Edge>, way: Way, depths: map<Id, nat>, parent: Id, before: set<Id>, middle: set<Id>, after: set<Id>,
                 drawn: seq<Edge>, lines: seq<Line>, line: Line, far: Id)
    requires Part(edges, way, depths, parent, before, middle, drawn, lines)
    requires line.Expanded? && Near(way, line.edge) == parent && Far(way, line.edge) == far && far !in middle
    requires Tight(way, depths, line.edge)
    requires Part(edges, way, depths, far, middle + {far}, after, Leaving(edges, way, far), line.children)
    ensures Part(edges, way, depths, parent, before, after, drawn + [line.edge], lines + [line])
  {
    hide *;
    PartParts(edges, way, depths, parent, before, middle, drawn, lines);
    PartParts(edges, way, depths, far, middle + {far}, after, Leaving(edges, way, far), line.children);
    HungExpanded(edges, way, depths, parent, line);
    HungAppends(edges, way, depths, parent, depths[parent] + 1, lines, line);
    ExpandsLine(way, before, middle, after, lines, line, far);
    DrawsLine(edges, way, drawn, lines, line, far);
    CoverGrows(way, depths, middle, after, drawn);
    CoverAppends(way, depths, after, drawn, line.edge);
    CoverLine(edges, way, depths, before, middle, after, far);
    PartWhole(edges, way, depths, parent, before, after, drawn + [line.edge], lines + [line]);
  }

  // --------------------------------------------------------------- the order

  /** The line expands its far node exactly if no line before it did and the node is one level further. */
  ghost predicate ExpandsFirst(way: Way, depths: map<Id, nat>, seen: set<Id>, line: Line) {
    line.Expanded? <==> Far(way, line.edge) !in seen && Tight(way, depths, line.edge)
  }

  ghost function SeenAfter(way: Way, before: set<Id>, lines: seq<Line>): set<Id> {
    before + set x | x in Expansions(way, lines)
  }

  /**
   * The lines draw the edges in the order given, and below each expanded node in the
   * order they are arranged in. A node is expanded on the first line, read from the
   * top, that leads to it from one level nearer the root.
   */
  ghost predicate InOrder(edges: seq<Edge>, arrange: seq<Edge> -> seq<Edge>, way: Way, depths: map<Id, nat>, before: set<Id>,
                          drawn: seq<Edge>, lines: seq<Line>)
    decreases lines
  {
    && |lines| == |drawn|
    && forall i :: 0 <= i < |lines| ==>
      var seen, far := SeenAfter(way, before, lines[..i]), Far(way, lines[i].edge);
      && lines[i].edge == drawn[i]
      && ExpandsFirst(way, depths, seen, lines[i])
      && (lines[i].Expanded? ==> InOrder(edges, arrange, way, depths, seen + {far}, arrange(Leaving(edges, way, far)), lines[i].children))
  }

  lemma InOrderAppends(edges: seq<Edge>, arrange: seq<Edge> -> seq<Edge>, way: Way, depths: map<Id, nat>, before: set<Id>,
                       drawn: seq<Edge>, lines: seq<Line>, line: Line, far: Id)
    requires InOrder(edges, arrange, way, depths, before, drawn, lines) && Far(way, line.edge) == far
    requires ExpandsFirst(way, depths, SeenAfter(way, before, lines), line)
    requires line.Expanded? ==>
      InOrder(edges, arrange, way, depths, SeenAfter(way, before, lines) + {far}, arrange(Leaving(edges, way, far)), line.children)
    ensures InOrder(edges, arrange, way, depths, before, drawn + [line.edge], lines + [line])
  {
    hide Leaving, ExpandsFirst, SeenAfter, Far;
    var longer := lines + [line];
    assert longer[..|lines|] == lines;
    assert forall i :: 0 <= i < |lines| ==> longer[i] == lines[i] && longer[..i] == lines[..i];
  }

  lemma InOrderEmpty(edges: seq<Edge>, arrange: seq<Edge> -> seq<Edge>, way: Way, depths: map<Id, nat>, before: set<Id>)
    ensures InOrder(edges, arrange, way, depths, before, [], [])
  {
  }

  lemma SeenIsExpanded(way: Way, before: set<Id>, after: set<Id>, lines: seq<Line>)
    requires ExpandsOnce(way, before, after, lines)
    ensures SeenAfter(way, before, lines) == after
  {
    hide Expansions, Distinct;
  }

  // ------------------------------------------------------------ the drawing

  /** Arranging a node's edges for drawing neither adds nor drops one. */
  ghost predicate Rearranges(arrange: seq<Edge> -> seq<Edge>) {
    forall leaving :: multiset(arrange(leaving)) == multiset(leaving)
  }

  /** One side of a tree: what its edges are, and how far from the root its nodes lie. */
  ghost predicate Measured(edges: seq<Edge>, way: Way, root: Id, depths: map<Id, nat>) {
    Shortest(Next(edges, way), {root}, depths)
  }

  lemma EdgeStaysMeasured(edges: seq<Edge>, way: Way, root: Id, depths: map<Id, nat>, edge: Edge)
    requires Measured(edges, way, root, depths) && edge in edges && Near(way, edge) in depths
    ensures Far(way, edge) in depths && depths[Far(way, edge)] <= depths[Near(way, edge)] + 1
  {
    var near := Near(way, edge);
    LeavingCounts(edges, way, near, edge);
    FarIsNeighbour(edges, way, near, Far(way, edge));
    hide Leaving, Next, Near, Far, ReachedIn;
    StepReachedIn(Next(edges, way), {root}, near, depths[near], Far(way, edge));
  }

  class GraphTree {
    const arrange: seq<Edge> -> seq<Edge>
    const edges: seq<Edge>
    var out: map<Id, seq<Edge>>
    var into: map<Id, seq<Edge>>
    var expanded: set<Id>
    var depths: map<Id, nat>

    ghost predicate Valid()
      reads this
    {
      Rearranges(arrange) && Indexes(out, edges, Outgoing) && Indexes(into, edges, Incoming)
    }

    constructor (edges: seq<Edge>, arrange: seq<Edge> -> seq<Edge>)
      requires Rearranges(arrange)
      ensures Valid() && this.edges == edges && this.arrange == arrange
    {
      this.edges, this.arrange := edges, arrange;
      out, into, expanded, depths := map[], map[], {}, map[];
      new;
      for i := 0 to |edges|
        invariant this.edges == edges && this.arrange == arrange
        invariant Indexes(out, edges[..i], Outgoing) && Indexes(into, edges[..i], Incoming)
      {
        assert edges[..i + 1][..i] == edges[..i];
        var edge := edges[i];
        out := out[edge.source := At(out, edge.source) + [edge]];
        into := into[edge.target := At(into, edge.target) + [edge]];
      }
      assert edges[..|edges|] == edges;
    }

    /** The lines of the callers and of the callees of a root. */
    method Root(id: Id) returns (callers: seq<Line>, callees: seq<Line>)
      requires Valid()
      modifies this`expanded, this`depths
      ensures Valid() && WholeTree(edges, arrange, Incoming, id, callers) && WholeTree(edges, arrange, Outgoing, id, callees)
    {
      ValidParts();
      hide *;
      callers := Side(id, Incoming, into);
      callees := Side(id, Outgoing, out);
      ValidWhole();
    }

    lemma ValidParts()
      requires Valid()
      ensures Rearranges(arrange) && Indexes(out, edges, Outgoing) && Indexes(into, edges, Incoming)
    {
    }

    lemma ValidWhole()
      requires Rearranges(arrange) && Indexes(out, edges, Outgoing) && Indexes(into, edges, Incoming)
      ensures Valid()
    {
    }

    method Side(id: Id, way: Way, side: map<Id, seq<Edge>>) returns (children: seq<Line>)
      requires Rearranges(arrange) && Indexes(side, edges, way)
      modifies this`expanded, this`depths
      ensures WholeTree(edges, arrange, way, id, children)
    {
      hide *;
      expanded := {id};
      depths := DirectionalDepths(id, edges, way, side);
      RootMeasured(edges, way, id, depths);
      children := Children(id, id, way, side);
      AllExpanded(edges, arrange, way, id, depths, expanded, children);
    }

    /** The lines of a node just expanded, and of every node they expand. */
    method Children(parent: Id, ghost root: Id, way: Way, side: map<Id, seq<Edge>>) returns (children: seq<Line>)
      requires Rearranges(arrange) && Indexes(side, edges, way) && Measured(edges, way, root, depths)
      requires parent in depths && expanded <= depths.Keys
      modifies this`expanded
      ensures Part(edges, way, depths, parent, old(expanded), expanded, Leaving(edges, way, parent), children)
      ensures InOrder(edges, arrange, way, depths, old(expanded), arrange(Leaving(edges, way, parent)), children)
      decreases depths.Keys - expanded
    {
      hide *;
      var drawn := arrange(At(side, parent));
      ArrangedEdges(arrange, side, edges, way, parent);
      children := [];
      InOrderEmpty(edges, arrange, way, depths, expanded);
      PartEmpty(edges, way, depths, parent, expanded);
      for i := 0 to |drawn|
        invariant Part(edges, way, depths, parent, old(expanded), expanded, drawn[..i], children)
        invariant old(expanded) <= expanded <= depths.Keys
        invariant InOrder(edges, arrange, way, depths, old(expanded), drawn[..i], children)
      {
        assert drawn[..i + 1] == drawn[..i] + [drawn[i]];
        var edge := drawn[i];
        var neighbour := Far(way, edge);
        EdgeStaysMeasured(edges, way, root, depths, edge);
        var line;
        SeenIsHere(edges, way, depths, parent, old(expanded), expanded, drawn[..i], children);
        ghost var before := expanded;
        if neighbour !in expanded && depths[neighbour] == depths[parent] + 1 {
          expanded := expanded + {neighbour};
          var inner := Children(neighbour, root, way, side);
          line := Expanded(edge, inner);
          TightEdge(way, depths, edge, parent, neighbour);
          PartLine(edges, way, depths, parent, old(expanded), before, expanded, drawn[..i], children, line, neighbour);
        } else {
          line := if At(side, neighbour) != [] then Elsewhere(edge) else Plain(edge);
          LeafHangs(side, edges, way, depths, parent, line);
          NotTight(way, depths, expanded, edge, parent, neighbour);
          PartLeaf(edges, way, depths, parent, old(expanded), expanded, drawn[..i], children, line);
        }
        PartParts(edges, way, depths, parent, old(expanded), expanded, drawn[..i + 1], children + [line]);
        ExpandedFirst(way, depths, before, line, parent);
        InOrderAppends(edges, arrange, way, depths, old(expanded), drawn[..i], children, line, neighbour);
        children := children + [line];
      }
      assert drawn[..|drawn|] == drawn;
      PartRearranged(edges, way, depths, parent, old(expanded), expanded, drawn, Leaving(edges, way, parent), children);
    }
  }

  lemma ArrangedEdges(arrange: seq<Edge> -> seq<Edge>, side: map<Id, seq<Edge>>, edges: seq<Edge>, way: Way, parent: Id)
    requires Rearranges(arrange) && Indexes(side, edges, way)
    ensures var drawn := arrange(At(side, parent));
            && drawn == arrange(Leaving(edges, way, parent))
            && multiset(drawn) == multiset(Leaving(edges, way, parent))
            && forall i :: 0 <= i < |drawn| ==> drawn[i] in edges && Near(way, drawn[i]) == parent
  {
    var drawn, leaving := arrange(At(side, parent)), Leaving(edges, way, parent);
    assert At(side, parent) == leaving;
    hide Leaving, At;
    assert multiset(drawn) == multiset(leaving);
    forall i | 0 <= i < |drawn| ensures drawn[i] in edges && Near(way, drawn[i]) == parent {
      assert drawn[i] in multiset(drawn);
      LeavingCounts(edges, way, parent, drawn[i]);
    }
  }

  lemma SeenIsHere(edges: seq<Edge>, way: Way, depths: map<Id, nat>, parent: Id, before: set<Id>, after: set<Id>, drawn: seq<Edge>, lines: seq<Line>)
    requires Part(edges, way, depths, parent, before, after, drawn, lines)
    ensures SeenAfter(way, before, lines) == after
  {
    PartParts(edges, way, depths, parent, before, after, drawn, lines);
    hide Part;
    SeenIsExpanded(way, before, after, lines);
  }

  lemma ExpandedFirst(way: Way, depths: map<Id, nat>, seen: set<Id>, line: Line, parent: Id)
    requires Near(way, line.edge) == parent && parent in depths && Far(way, line.edge) in depths
    requires line.Expanded? <==> Far(way, line.edge) !in seen && depths[Far(way, line.edge)] == depths[parent] + 1
    ensures ExpandsFirst(way, depths, seen, line)
  {
  }

  lemma TightEdge(way: Way, depths: map<Id, nat>, edge: Edge, parent: Id, far: Id)
    requires Near(way, edge) == parent && Far(way, edge) == far && parent in depths && far in depths && depths[far] == depths[parent] + 1
    ensures Tight(way, depths, edge)
  {
  }

  lemma NotTight(way: Way, depths: map<Id, nat>, expanded: set<Id>, edge: Edge, parent: Id, far: Id)
    requires Near(way, edge) == parent && Far(way, edge) == far && parent in depths && far in depths
    requires far in expanded || depths[far] != depths[parent] + 1
    ensures Tight(way, depths, edge) ==> Far(way, edge) in expanded
  {
  }

  lemma LeafHangs(side: map<Id, seq<Edge>>, edges: seq<Edge>, way: Way, depths: map<Id, nat>, parent: Id, line: Line)
    requires Indexes(side, edges, way) && Near(way, line.edge) == parent && parent in depths
    requires line == if At(side, Far(way, line.edge)) != [] then Elsewhere(line.edge) else Plain(line.edge)
    ensures HungLine(edges, way, depths, parent, depths[parent] + 1, line)
  {
    assert At(side, Far(way, line.edge)) == Leaving(edges, way, Far(way, line.edge));
    hide Leaving, At, Hung;
  }

  lemma PartRearranged(edges: seq<Edge>, way: Way, depths: map<Id, nat>, parent: Id, before: set<Id>, after: set<Id>,
                       drawn: seq<Edge>, leaving: seq<Edge>, lines: seq<Line>)
    requires Part(edges, way, depths, parent, before, after, drawn, lines) && multiset(drawn) == multiset(leaving)
    ensures Part(edges, way, depths, parent, before, after, leaving, lines)
  {
    PartParts(edges, way, depths, parent, before, after, drawn, lines);
    assert DrawsAll(edges, way, leaving, lines);
    forall e | e in leaving && Tight(way, depths, e) ensures Far(way, e) in after {
      assert e in multiset(leaving);
      assert e in drawn;
    }
    assert Covered(way, depths, after, leaving);
    PartWhole(edges, way, depths, parent, before, after, leaving, lines);
  }

  lemma RootMeasured(edges: seq<Edge>, way: Way, root: Id, depths: map<Id, nat>)
    requires Measured(edges, way, root, depths)
    ensures root in depths && depths[root] == 0
  {
    hide Next, ReachedIn;
    RootReachedIn(Next(edges, way), {root}, root);
  }

  // --------------------------------------------------- breadth-first depths

  ghost function Ends(edges: seq<Edge>, way: Way): set<Id> {
    set e | e in edges :: Far(way, e)
  }

  method ExpandDepths(ghost root: Id, ghost edges: seq<Edge>, way: Way, id: Id, leaving: seq<Edge>, depths0: map<Id, nat>, queue0: seq<Id>)
    returns (depths: map<Id, nat>, queue: seq<Id>)
    requires leaving == Leaving(edges, way, id) && id in depths0 && depths0.Keys <= {root} + Ends(edges, way)
    requires Searching(Next(edges, way), {root}, depths0, queue0, {id}, depths0[id])
    ensures id in depths && depths0.Keys <= depths.Keys <= {root} + Ends(edges, way)
    ensures depths.Keys == depths0.Keys ==> |queue| == |queue0|
    ensures Searching(Next(edges, way), {root}, depths, queue, {}, depths[id])
  {
    hide *;
    ghost var next := Next(edges, way);
    depths, queue := depths0, queue0;
    for i := 0 to |leaving|
      invariant id in depths && Searching(next, {root}, depths, queue, {id}, depths[id])
      invariant depths0.Keys <= depths.Keys <= {root} + Ends(edges, way)
      invariant depths.Keys == depths0.Keys ==> |queue| == |queue0|
      invariant forall k :: 0 <= k < i ==> Far(way, leaving[k]) in depths
    {
      var neighbour := Far(way, leaving[i]);
      LeavingEnds(edges, way, id, leaving[i]);
      if neighbour !in depths {
        Discover(next, {root}, depths, queue, id, neighbour);
        depths := depths[neighbour := depths[id] + 1];
        queue := queue + [neighbour];
        assert neighbour in depths.Keys;
      }
    }
    forall y | y in next(id) ensures y in depths {
      FarIsNeighbour(edges, way, id, y);
    }
    Finish(next, {root}, depths, queue, id);
  }

  lemma LeavingEnds(edges: seq<Edge>, way: Way, id: Id, e: Edge)
    requires e in Leaving(edges, way, id)
    ensures Far(way, e) in Ends(edges, way) && Far(way, e) in Next(edges, way)(id)
  {
    LeavingCounts(edges, way, id, e);
    FarIsNeighbour(edges, way, id, Far(way, e));
  }

  lemma BeginDepths(next: Id -> seq<Id>, root: Id)
    ensures Searching(next, {root}, map[root := 0], [root], {}, 0)
  {
    hide Searching;
    Begin(next, {root}, map[root := 0], [root]);
  }

  method DirectionalDepths(root: Id, ghost edges: seq<Edge>, way: Way, side: map<Id, seq<Edge>>) returns (depths: map<Id, nat>)
    requires Indexes(side, edges, way)
    ensures Measured(edges, way, root, depths)
  {
    assert forall id :: At(side, id) == Leaving(edges, way, id) by { hide At, Leaving; }
    hide *;
    ghost var all := {root} + Ends(edges, way);
    depths := map[root := 0];
    var queue := [root];
    BeginDepths(Next(edges, way), root);
    ghost var front := 0;
    while queue != []
      invariant Searching(Next(edges, way), {root}, depths, queue, {}, front)
      invariant depths.Keys <= all
      decreases all - depths.Keys, |queue|
    {
      var id := queue[0];
      ghost var met := depths.Keys;
      QueueHeadMet(Next(edges, way), {root}, depths, queue, front);
      Dequeue(Next(edges, way), {root}, depths, queue, front);
      depths, queue := ExpandDepths(root, edges, way, id, At(side, id), depths, queue[1..]);
      front := depths[id];
      FewerLeft(all, met, depths.Keys);
    }
    Done(Next(edges, way), {root}, depths, front);
    IsMeasured(edges, way, root, depths);
  }

  lemma QueueHeadMet(next: Id -> seq<Id>, roots: set<Id>, depths: map<Id, nat>, queue: seq<Id>, front: nat)
    requires Searching(next, roots, depths, queue, {}, front) && queue != []
    ensures queue[0] in depths
  {
  }

  lemma IsMeasured(edges: seq<Edge>, way: Way, root: Id, depths: map<Id, nat>)
    requires Shortest(Next(edges, way), {root}, depths)
    ensures Measured(edges, way, root, depths)
  {
  }

  // -------------------------------------------------------- the whole tree

  /** The tree of one side: what it expands, at which depth, what it draws, and in which order. */
  ghost predicate WholeTree(edges: seq<Edge>, arrange: seq<Edge> -> seq<Edge>, way: Way, root: Id, lines: seq<Line>) {
    && (exists depths ::
          && Measured(edges, way, root, depths)
          && Hung(edges, way, depths, root, 1, lines)
          && InOrder(edges, arrange, way, depths, {root}, arrange(Leaving(edges, way, root)), lines))
    && Distinct(Expansions(way, lines))
    && (forall x :: x in Expansions(way, lines) <==> x != root && Reaches(Next(edges, way), root, x))
    && (forall e :: multiset(Drawn(lines))[e] == if Reaches(Next(edges, way), root, Near(way, e)) then multiset(edges)[e] else 0)
  }

  lemma MeasuredReaches(edges: seq<Edge>, way: Way, root: Id, depths: map<Id, nat>, x: Id)
    requires Measured(edges, way, root, depths)
    ensures x in depths <==> Reaches(Next(edges, way), root, x)
  {
    hide Next;
    var next := Next(edges, way);
    if Reaches(next, root, x) {
      var w :| IsWalkFromTo(next, w, root, x);
      assert IsWalk(next, w) && |w| == |w| - 1 + 1 && w[0] in {root} && w[|w| - 1] == x;
      assert ReachedIn(next, {root}, x, |w| - 1);
    }
    if x in depths {
      assert ReachedIn(next, {root}, x, depths[x]);
      var w :| IsWalk(next, w) && |w| == depths[x] + 1 && w[0] in {root} && w[depths[x]] == x;
      assert IsWalkFromTo(next, w, root, x);
    }
  }

  /** Every node that has a depth is expanded, since its nearer neighbour is. */
  lemma {:induction false} MeasuredIsExpanded(edges: seq<Edge>, way: Way, root: Id, depths: map<Id, nat>, after: set<Id>, x: Id)
    requires Measured(edges, way, root, depths) && root in after && x in depths
    requires Covered(way, depths, after, Leaving(edges, way, root)) && AllCovered(edges, way, depths, {root}, after)
    ensures x in after
    decreases depths[x]
  {
    hide Next, Leaving, ReachedIn;
    var next, k := Next(edges, way), depths[x];
    assert ReachedIn(next, {root}, x, k);
    if k == 0 {
      OnlyRootReachedIn(next, root, x);
    } else {
      var y := LastStepIn(next, {root}, x, k);
      assert y in depths && depths[y] <= k - 1;
      StepReachedIn(next, {root}, y, depths[y], x);
      MeasuredIsExpanded(edges, way, root, depths, after, y);
      FarIsNeighbour(edges, way, y, x);
      var e :| e in Leaving(edges, way, y) && Far(way, e) == x;
      LeavingCounts(edges, way, y, e);
      assert Tight(way, depths, e);
      assert Covered(way, depths, after, Leaving(edges, way, y));
    }
  }

  lemma OnlyRootReachedIn(next: Id -> seq<Id>, root: Id, x: Id)
    requires ReachedIn(next, {root}, x, 0)
    ensures x == root
  {
  }

  lemma ExpansionsAreReached(edges: seq<Edge>, way: Way, root: Id, depths: map<Id, nat>, after: set<Id>, lines: seq<Line>, x: Id)
    requires Measured(edges, way, root, depths) && root in after && after <= depths.Keys && ExpandsOnce(way, {root}, after, lines)
    requires Covered(way, depths, after, Leaving(edges, way, root)) && AllCovered(edges, way, depths, {root}, after)
    ensures x in Expansions(way, lines) <==> x != root && Reaches(Next(edges, way), root, x)
  {
    hide Next, Leaving, Expansions, Covered, AllCovered, Measured, Reaches, Distinct;
    MeasuredReaches(edges, way, root, depths, x);
    if x in depths {
      MeasuredIsExpanded(edges, way, root, depths, after, x);
    }
  }

  lemma DrawnCounts(edges: seq<Edge>, way: Way, root: Id, lines: seq<Line>, e: Edge)
    requires DrawsAll(edges, way, Leaving(edges, way, root), lines) && Distinct(Expansions(way, lines)) && root !in Expansions(way, lines)
    ensures multiset(Drawn(lines))[e] == if Near(way, e) == root || Near(way, e) in Expansions(way, lines) then multiset(edges)[e] else 0
  {
    hide Leaving, AllLeaving, Expansions, Drawn, Near, Distinct;
    LeavingCounts(edges, way, root, e);
    AllLeavingCounts(edges, way, Expansions(way, lines), e);
  }

  lemma ExpandsOnceParts(way: Way, before: set<Id>, after: set<Id>, lines: seq<Line>)
    requires ExpandsOnce(way, before, after, lines)
    ensures before <= after && Distinct(Expansions(way, lines)) && forall x :: x in before ==> x !in Expansions(way, lines)
  {
    hide Expansions, Distinct;
  }

  lemma AllExpanded(edges: seq<Edge>, arrange: seq<Edge> -> seq<Edge>, way: Way, root: Id, depths: map<Id, nat>, after: set<Id>, lines: seq<Line>)
    requires Measured(edges, way, root, depths) && root in depths && depths[root] == 0
    requires Part(edges, way, depths, root, {root}, after, Leaving(edges, way, root), lines)
    requires InOrder(edges, arrange, way, depths, {root}, arrange(Leaving(edges, way, root)), lines)
    ensures WholeTree(edges, arrange, way, root, lines)
  {
    hide *;
    PartParts(edges, way, depths, root, {root}, after, Leaving(edges, way, root), lines);
    ExpandsOnceParts(way, {root}, after, lines);
    ReachesSelf(Next(edges, way), root);
    forall x ensures x in Expansions(way, lines) <==> x != root && Reaches(Next(edges, way), root, x) {
      ExpansionsAreReached(edges, way, root, depths, after, lines, x);
    }
    forall e ensures multiset(Drawn(lines))[e] == if Reaches(Next(edges, way), root, Near(way, e)) then multiset(edges)[e] else 0 {
      DrawnCounts(edges, way, root, lines, e);
    }
    IsWholeTree(edges, arrange, way, root, depths, lines);
  }

  lemma IsWholeTree(edges: seq<Edge>, arrange: seq<Edge> -> seq<Edge>, way: Way, root: Id, depths: map<Id, nat>, lines: seq<Line>)
    requires Measured(edges, way, root, depths) && Hung(edges, way, depths, root, 1, lines) && Distinct(Expansions(way, lines))
    requires forall x :: x in Expansions(way, lines) <==> x != root && Reaches(Next(edges, way), root, x)
    requires forall e :: multiset(Drawn(lines))[e] == if Reaches(Next(edges, way), root, Near(way, e)) then multiset(edges)[e] else 0
    requires InOrder(edges, arrange, way, depths, {root}, arrange(Leaving(edges, way, root)), lines)
    ensures WholeTree(edges, arrange, way, root, lines)
  {
    hide Hung, Expansions, Next, Drawn, Near, Reaches, Measured, Distinct, InOrder;
  }
}
