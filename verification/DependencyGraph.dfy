/**
 * The local module dependency graph (indexer/dependency_graph.go): edges by
 * local directory, the groups Components finds in them, and the test for a cycle.
 */
module DependencyGraph {
  import opened Walks
  import opened Components

  /** A discovered module root and the local directories of its dependencies. */
  datatype Root = Root(localPath: string, dependencies: seq<string>)

  /** byPath is the index of the root at each path; distinct roots have distinct paths. */
  ghost predicate Indexed(roots: seq<Root>, byPath: map<string, nat>) {
    && (forall path :: path in byPath ==> byPath[path] < |roots| && roots[byPath[path]].localPath == path)
    && (forall i :: 0 <= i < |roots| ==> roots[i].localPath in byPath && byPath[roots[i].localPath] == i)
  }

  /** The roots that the directories name. */
  function Named(directories: seq<string>, byPath: map<string, nat>): (targets: seq<nat>)
    ensures forall t :: t in targets <==> exists d :: d in directories && d in byPath && byPath[d] == t
  {
    if directories == [] then [] else
      var rest := Named(directories[1..], byPath);
      if directories[0] in byPath then [byPath[directories[0]]] + rest else rest
  }

  /** The roots a root depends on. */
  function Targets(roots: seq<Root>, byPath: map<string, nat>, node: nat): seq<nat> {
    if node < |roots| then Named(roots[node].dependencies, byPath) else []
  }

  /** Some node leads back to itself over at least one edge. */
  ghost predicate HasCycle(next: nat -> seq<nat>, n: nat) {
    exists v: nat, w: nat :: v < n && w in next(v) && Reaches(next, w, v)
  }

  method DependencyTargets(roots: seq<Root>, byPath: map<string, nat>, node: nat) returns (targets: seq<nat>)
    requires node < |roots|
    ensures targets == Targets(roots, byPath, node)
  {
    targets := [];
    var dependencies := roots[node].dependencies;
    for i := 0 to |dependencies|
      invariant targets + Named(dependencies[i..], byPath) == Named(dependencies, byPath)
    {
      if dependencies[i] in byPath {
        targets := targets + [byPath[dependencies[i]]];
      }
    }
  }

  lemma EdgesInGraph(roots: seq<Root>, byPath: map<string, nat>)
    requires Indexed(roots, byPath)
    ensures InGraph(v => Targets(roots, byPath, v), |roots|)
  {
  }

  method FindComponents(roots: seq<Root>, byPath: map<string, nat>) returns (groups: seq<seq<nat>>)
    requires Indexed(roots, byPath)
    ensures var next := v => Targets(roots, byPath, v);
            Partition(groups, |roots|) && GroupsAreComponents(next, groups) && DependenciesFirst(next, groups)
  {
    EdgesInGraph(roots, byPath);
    groups := DependencyComponents(|roots|, v => Targets(roots, byPath, v));
  }

  /** Two different members of a group lie on a cycle. */
  lemma SharedGroupIsCycle(next: nat -> seq<nat>, n: nat, v: nat, w: nat)
    requires v < n && v != w && Reaches(next, v, w) && Reaches(next, w, v)
    ensures HasCycle(next, n)
  {
    var walk :| IsWalkFromTo(next, walk, v, w);
    var x := walk[1];
    assert x in next(walk[0]);
    assert IsWalkFromTo(next, walk[1..], x, w);
    ReachesTrans(next, x, w, v);
  }

  /** A group of two or more, or a group whose one root depends on itself. */
  ghost predicate CyclicGroup(roots: seq<Root>, group: seq<nat>)
    requires group != [] && group[0] < |roots|
  {
    |group| > 1 || roots[group[0]].localPath in roots[group[0]].dependencies
  }

  lemma CyclicGroupHasCycle(roots: seq<Root>, byPath: map<string, nat>, groups: seq<seq<nat>>, i: nat)
    requires Indexed(roots, byPath) && Partition(groups, |roots|)
    requires GroupsAreComponents(v => Targets(roots, byPath, v), groups)
    requires i < |groups| && groups[i] != [] && groups[i][0] < |roots| && CyclicGroup(roots, groups[i])
    ensures HasCycle(v => Targets(roots, byPath, v), |roots|)
  {
    var next := (v: nat) => Targets(roots, byPath, v);
    var v := groups[i][0];
    assert InGroup(groups, i, v);
    if |groups[i]| > 1 {
      var w := groups[i][1];
      assert InGroup(groups, i, w);
      SharedGroupIsCycle(next, |roots|, v, w);
    } else {
      ReachesSelf(next, v);
      assert v in next(v);
    }
  }

  lemma CycleIsInGroup(roots: seq<Root>, byPath: map<string, nat>, groups: seq<seq<nat>>)
    requires Indexed(roots, byPath) && Partition(groups, |roots|)
    requires GroupsAreComponents(v => Targets(roots, byPath, v), groups)
    requires HasCycle(v => Targets(roots, byPath, v), |roots|)
    ensures exists i :: 0 <= i < |groups| && groups[i] != [] && groups[i][0] < |roots| && CyclicGroup(roots, groups[i])
  {
    var next := (v: nat) => Targets(roots, byPath, v);
    var v: nat, w: nat :| v < |roots| && w in next(v) && Reaches(next, w, v);
    ReachesSelf(next, v);
    ReachesStep(next, v, v, w);
    assert Listed(groups, v) && Listed(groups, w);
    var i: nat :| InGroup(groups, i, v);
    var j: nat :| InGroup(groups, j, w);
    assert i == j;
    assert InGroup(groups, i, groups[i][0]) && Listed(groups, groups[i][0]);
    if |groups[i]| == 1 {
      assert v == w == groups[i][0];
    }
  }

  /** Whether the groups show a cycle, self-dependencies included. */
  method Cyclic(roots: seq<Root>, byPath: map<string, nat>, groups: seq<seq<nat>>) returns (cyclic: bool)
    requires Indexed(roots, byPath) && Partition(groups, |roots|)
    requires GroupsAreComponents(v => Targets(roots, byPath, v), groups)
    ensures cyclic <==> HasCycle(v => Targets(roots, byPath, v), |roots|)
  {
    forall i | 0 <= i < |groups| ensures groups[i] != [] && groups[i][0] < |roots| {
      assert InGroup(groups, i, groups[i][0]) && Listed(groups, groups[i][0]);
    }
    for i := 0 to |groups|
      invariant forall j :: 0 <= j < i ==> !CyclicGroup(roots, groups[j])
    {
      var group := groups[i];
      if |group| > 1 {
        CyclicGroupHasCycle(roots, byPath, groups, i);
        return true;
      }
      var root := roots[group[0]];
      for k := 0 to |root.dependencies|
        invariant root.localPath !in root.dependencies[..k]
      {
        if root.dependencies[k] == root.localPath {
          CyclicGroupHasCycle(roots, byPath, groups, i);
          return true;
        }
      }
      assert root.dependencies[..|root.dependencies|] == root.dependencies;
    }
    if HasCycle(v => Targets(roots, byPath, v), |roots|) {
      CycleIsInGroup(roots, byPath, groups);
    }
    return false;
  }
}
