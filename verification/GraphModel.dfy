/**
 * What a bounded graph is built from (graph/model.go, graph/access.go): a source
 * of neighbours, the options that bound the walk, and the graph the options and
 * the source determine.
 */
module GraphModel {
  import BreadthFirst

  type Id = string

  datatype Node = Node(id: Id, unresolved: bool, group: string)

  /** The guards stand for everything a site says beside its place and its text. */
  datatype Site = Site(path: string, line: int, column: int, text: string, guards: seq<string>)

  datatype Step = Step(node: Node, edgeType: string, kind: string, sites: seq<Site>)

  /** Describes a node, and lists the nodes it calls and the nodes that call it. */
  datatype Source = Source(describe: Id -> Node, callees: Id -> seq<Step>, callers: Id -> seq<Step>)

  datatype Direction = Callees | Callers | Both

  /** Which neighbours a walk follows: callees away from the roots, or callers. */
  datatype Way = Out | In

  function Sign(way: Way): int {
    if way.Out? then 1 else -1
  }

  datatype Exclusion = KeepAll | Exclude(excluded: Node -> bool)

  datatype Options = Options(direction: Direction, depth: int, limit: int, exclude: Exclusion, access: seq<string>)

  const MAX_DEPTH := 8
  const MAX_LIMIT := 1000

  const RELATIONSHIP_TYPES: set<string> := {
    "import", "call", "reference", "inheritance", "implements", "includes", "foreign_key", "read", "write", "dispatch"
  }

  predicate ValidOptions(opts: Options) {
    1 <= opts.depth <= MAX_DEPTH && 1 <= opts.limit <= MAX_LIMIT && forall t :: t in opts.access ==> t in RELATIONSHIP_TYPES
  }

  /** An empty access follows every edge type, and call follows a dispatch too. */
  predicate Follows(access: seq<string>, edgeType: string) {
    access == [] || edgeType in access || (edgeType == "dispatch" && "call" in access)
  }

  datatype EdgeKey = EdgeKey(source: Id, target: Id, edgeType: string, kind: string)

  /** One direction of one node. */
  datatype Side = Side(id: Id, way: Way)

  datatype Config = Config(src: Source, opts: Options)

  function StepsOf(c: Config, side: Side): seq<Step> {
    if side.way.Out? then c.src.callees(side.id) else c.src.callers(side.id)
  }

  function KeyOf(side: Side, step: Step): EdgeKey {
    if side.way.Out? then EdgeKey(side.id, step.node.id, step.edgeType, step.kind)
    else EdgeKey(step.node.id, side.id, step.edgeType, step.kind)
  }

  /** The source lists this step on this side, and the access options follow its edge. */
  predicate FollowedStep(c: Config, side: Side, step: Step) {
    step in StepsOf(c, side) && Follows(c.opts.access, step.edgeType)
  }

  predicate WellFormed(step: Step) {
    step.node.id != "" && step.edgeType != ""
  }

  // ------------------------------------------------- the graph of sides

  /** Every step says of its node whether it is resolved as Describe does. */
  ghost predicate Consistent(c: Config) {
    forall side, step :: step in StepsOf(c, side) ==> step.node.unresolved == c.src.describe(step.node.id).unresolved
  }

  function FollowedNodes(c: Config, steps: seq<Step>, way: Way): (sides: seq<Side>)
    ensures forall t :: t in sides <==>
      t.way == way && exists step :: step in steps && Follows(c.opts.access, step.edgeType) && step.node.id == t.id
  {
    if steps == [] then [] else
      var n := |steps| - 1;
      var rest := FollowedNodes(c, steps[..n], way);
      assert forall step :: step in steps <==> step in steps[..n] || step == steps[n];
      if Follows(c.opts.access, steps[n].edgeType) then rest + [Side(steps[n].node.id, way)] else rest
  }

  predicate Resolved(c: Config, id: Id) {
    !c.src.describe(id).unresolved
  }

  /** Where one followed edge leads from a side; an unresolved node is a leaf. */
  function NextSides(c: Config, side: Side): seq<Side> {
    if Resolved(c, side.id) then FollowedNodes(c, StepsOf(c, side), side.way) else []
  }

  predicate Requested(direction: Direction, way: Way) {
    if way.Out? then direction != Callers else direction != Callees
  }

  predicate RootSide(c: Config, roots: seq<Id>, side: Side) {
    side.id in roots && Requested(c.opts.direction, side.way)
  }

  ghost function Next(c: Config): Side -> seq<Side> {
    (side: Side) => NextSides(c, side)
  }

  ghost function RootSides(c: Config, roots: seq<Id>): set<Side> {
    set id, way | id in roots && Requested(c.opts.direction, way) :: Side(id, way)
  }

  lemma RootSidesAre(c: Config, roots: seq<Id>, side: Side)
    ensures side in RootSides(c, roots) <==> RootSide(c, roots, side)
  {
  }

  /** A walk of k followed edges leads from a root, in a requested direction, to the side. */
  ghost predicate ReachedIn(c: Config, roots: seq<Id>, side: Side, k: nat) {
    BreadthFirst.ReachedIn(Next(c), RootSides(c, roots), side, k)
  }

  lemma RootReached(c: Config, roots: seq<Id>, side: Side)
    requires RootSide(c, roots, side)
    ensures ReachedIn(c, roots, side, 0)
  {
    RootSidesAre(c, roots, side);
    BreadthFirst.RootReachedIn(Next(c), RootSides(c, roots), side);
  }

  lemma StepReached(c: Config, roots: seq<Id>, side: Side, k: nat, t: Side)
    requires ReachedIn(c, roots, side, k) && t in NextSides(c, side)
    ensures ReachedIn(c, roots, t, k + 1)
  {
    BreadthFirst.StepReachedIn(Next(c), RootSides(c, roots), side, k, t);
  }

  lemma LastStep(c: Config, roots: seq<Id>, t: Side, k: nat) returns (side: Side)
    requires ReachedIn(c, roots, t, k) && k > 0
    ensures ReachedIn(c, roots, side, k - 1) && t in NextSides(c, side)
  {
    side := BreadthFirst.LastStepIn(Next(c), RootSides(c, roots), t, k);
  }

  lemma ReachedByNone(c: Config, roots: seq<Id>, t: Side)
    requires ReachedIn(c, roots, t, 0)
    ensures RootSide(c, roots, t)
  {
    RootSidesAre(c, roots, t);
  }

  // --------------------------------------------------------- exclusion

  predicate Keeps(exclude: Exclusion, node: Node) {
    exclude.KeepAll? || !exclude.excluded(node)
  }

  /** A root is in the graph before any step is followed, so no exclusion leaves it out. */
  predicate Admits(exclude: Exclusion, roots: seq<Id>, step: Step) {
    Keeps(exclude, step.node) || step.node.id in roots
  }

  function Admitted(exclude: Exclusion, roots: seq<Id>, steps: seq<Step>): (admitted: seq<Step>)
    ensures forall step :: step in admitted <==> step in steps && Admits(exclude, roots, step)
  {
    if steps == [] then [] else
      var n := |steps| - 1;
      assert forall step :: step in steps <==> step in steps[..n] || step == steps[n];
      Admitted(exclude, roots, steps[..n]) + if Admits(exclude, roots, steps[n]) then [steps[n]] else []
  }

  /** The source without the steps to excluded nodes, which then need not be excluded. */
  ghost function Unexcluded(c: Config, roots: seq<Id>): Config {
    Config(
      Source(c.src.describe,
             id => Admitted(c.opts.exclude, roots, c.src.callees(id)),
             id => Admitted(c.opts.exclude, roots, c.src.callers(id))),
      c.opts.(exclude := KeepAll))
  }

  /** Every step says of its node whether it is excluded as Describe does. */
  ghost predicate ExcludesAlike(c: Config) {
    forall side, step :: step in StepsOf(c, side) ==>
      Keeps(c.opts.exclude, step.node) == Keeps(c.opts.exclude, c.src.describe(step.node.id))
  }

  lemma UnexcludedSteps(c: Config, roots: seq<Id>, side: Side)
    ensures StepsOf(Unexcluded(c, roots), side) == Admitted(c.opts.exclude, roots, StepsOf(c, side))
  {
  }

  lemma UnexcludedConsistent(c: Config, roots: seq<Id>)
    requires Consistent(c)
    ensures Consistent(Unexcluded(c, roots))
  {
    var x := Unexcluded(c, roots);
    forall side, step | step in StepsOf(x, side) ensures step in StepsOf(c, side) {
      UnexcludedSteps(c, roots, side);
    }
  }
}
